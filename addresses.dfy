/** Network address selection: which IP address of the container is probed
    when its DNS name does not answer (get_container_ip). */
module Addresses {
  import opened Wrappers
  import opened Docker

  /** The entry a dictionary lookup `nets[name]` finds. In the runtime's data
      network names are dictionary keys and occur at most once; the sequence
      does not enforce this, and where a name repeats the first entry with
      that name is taken. */
  function EntryNamed(nets: seq<NetworkEntry>, name: string): (e: Option<NetworkEntry>)
    ensures e.None? <==> forall k :: 0 <= k < |nets| ==> nets[k].name != name
    ensures e.Some? ==> exists k :: 0 <= k < |nets| && nets[k] == e.value && e.value.name == name
                          && forall j :: 0 <= j < k ==> nets[j].name != name
  {
    if nets == [] then None
    else if nets[0].name == name then Some(nets[0])
    else
      EntryNamed(nets[1..], name)
  }

  /** The address of the preferred network, when a preferred network is given
      (non-empty), is attached, and has a non-empty address. */
  function PreferredAddress(nets: seq<NetworkEntry>, preferred: Option<string>): Option<string>
  {
    if !Truthy(preferred) then None
    else match EntryNamed(nets, preferred.value)
      case Some(e) => if Truthy(e.ipAddress) then e.ipAddress else None
      case None => None
  }

  /** The first non-empty address in enumeration order, if any. */
  function FirstAddress(nets: seq<NetworkEntry>): Option<string>
  {
    if nets == [] then None
    else if Truthy(nets[0].ipAddress) then nets[0].ipAddress
    else FirstAddress(nets[1..])
  }

  /** Reference definition of the address chosen for the container: none when
      inspecting it raised; else the preferred network's address; else the
      first non-empty address. */
  function ContainerIp(inspected: Lookup<Attrs>, preferred: Option<string>): Option<string>
  {
    match inspected
    case Found(attrs) =>
      if PreferredAddress(attrs.networks, preferred).Some? then PreferredAddress(attrs.networks, preferred)
      else FirstAddress(attrs.networks)
    case NotFound(_) => None
    case Failed(_) => None
  }

  /** FirstAddress is the first non-empty address, and None exactly when no
      network has one. */
  lemma {:induction false} FirstAddressIsFirst(nets: seq<NetworkEntry>)
    ensures FirstAddress(nets).None? <==> forall k :: 0 <= k < |nets| ==> !Truthy(nets[k].ipAddress)
    ensures FirstAddress(nets).Some? ==>
              exists k :: 0 <= k < |nets| && nets[k].ipAddress == FirstAddress(nets) && Truthy(nets[k].ipAddress)
                          && forall j :: 0 <= j < k ==> !Truthy(nets[j].ipAddress)
  {
    if nets != [] && !Truthy(nets[0].ipAddress) {
      var rest := nets[1..];
      FirstAddressIsFirst(rest);
      if FirstAddress(rest).Some? {
        var k :| 0 <= k < |rest| && rest[k].ipAddress == FirstAddress(rest) && Truthy(rest[k].ipAddress)
                 && forall j :: 0 <= j < k ==> !Truthy(rest[j].ipAddress);
        assert nets[k + 1] == rest[k];
        assert forall j :: 0 <= j < k + 1 ==> !Truthy(nets[j].ipAddress) by {
          forall j | 0 <= j < k + 1 ensures !Truthy(nets[j].ipAddress) {
            if j > 0 { assert nets[j] == rest[j - 1]; }
          }
        }
      } else {
        forall k | 0 <= k < |nets| ensures !Truthy(nets[k].ipAddress) {
          if k > 0 { assert nets[k] == rest[k - 1]; }
        }
      }
    }
  }

  /** The choice made for the container: nothing when the inspection failed;
      the preferred network's address when it is attached with a non-empty
      address; otherwise the first non-empty address in enumeration order, or
      nothing when there is none. An empty address is never returned. */
  lemma ContainerIpChoice(inspected: Lookup<Attrs>, preferred: Option<string>)
    ensures !inspected.Found? ==> ContainerIp(inspected, preferred) == None
    ensures ContainerIp(inspected, preferred).Some? ==> ContainerIp(inspected, preferred).value != ""
    ensures inspected.Found? && Truthy(preferred) && EntryNamed(inspected.value.networks, preferred.value).Some?
              && Truthy(EntryNamed(inspected.value.networks, preferred.value).value.ipAddress)
            ==> ContainerIp(inspected, preferred) == EntryNamed(inspected.value.networks, preferred.value).value.ipAddress
    ensures inspected.Found? && PreferredAddress(inspected.value.networks, preferred).None? ==>
              var nets := inspected.value.networks;
              var ip := ContainerIp(inspected, preferred);
              && (ip.None? <==> forall k :: 0 <= k < |nets| ==> !Truthy(nets[k].ipAddress))
              && (ip.Some? ==> exists k :: 0 <= k < |nets| && nets[k].ipAddress == ip
                                && forall j :: 0 <= j < k ==> !Truthy(nets[j].ipAddress))
  {
    if inspected.Found? {
      FirstAddressIsFirst(inspected.value.networks);
    }
  }

  /** get_container_ip: the preferred network first, then a scan of the
      networks in enumeration order returning the first non-empty address. */
  method GetContainerIp(inspected: Lookup<Attrs>, preferred: Option<string>) returns (ip: Option<string>)
    ensures ip == ContainerIp(inspected, preferred)
  {
    if !inspected.Found? {
      return None;
    }
    var nets := inspected.value.networks;
    if Truthy(preferred) {
      var entry := EntryNamed(nets, preferred.value);
      if entry.Some? && Truthy(entry.value.ipAddress) {
        return entry.value.ipAddress;
      }
    }
    var i := 0;
    while i < |nets|
      invariant 0 <= i <= |nets|
      invariant FirstAddress(nets[i..]) == FirstAddress(nets)
    {
      var candidate := nets[i].ipAddress;
      if Truthy(candidate) {
        return candidate;
      }
      assert nets[i..][1..] == nets[i + 1..];
      i := i + 1;
    }
    return None;
  }
}
