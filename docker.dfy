/** The container runtime as the service sees it: what a lookup of the
    managed container yields, the parts of its inspection data that are read,
    and the handle through which lifecycle commands are issued. */
module Docker {
  import opened Wrappers

  /** Fixed name of the managed game-server container (CONTAINER_NAME). */
  const ContainerName: string := "minecraft"

  /** Outcome of looking the container up by name: the runtime either hands
      back the container, reports that no such container exists, or fails in
      some other way. Both failures carry the text of the raised error. */
  datatype Lookup<+T> = Found(value: T) | NotFound(error: string) | Failed(error: string)

  /** One entry of `NetworkSettings.Networks`; `ipAddress` is None when the
      `IPAddress` key is absent or null. */
  datatype NetworkEntry = NetworkEntry(name: string, ipAddress: Option<string>)

  /** The inspection data read by the service: `State.Status`,
      `State.Health.Status` and the attached networks in the order the
      runtime enumerates them (an absent or null `Networks` is empty). */
  datatype Attrs = Attrs(stateStatus: Option<string>, healthStatus: Option<string>, networks: seq<NetworkEntry>)

  /** Calls a handle sends to the runtime. */
  datatype Command = Start | Stop | Reload

  /** A container handle. `status` is the lifecycle status cached in the
      handle when it was fetched or last reloaded; `calls` records, in order,
      every command sent to the runtime through it. The runtime's answers are
      parameters: the error a start or stop is rejected with, and what a
      reload reads back. */
  class Container {
    var status: string
    ghost var calls: seq<Command>

    method Start(rejection: Option<string>) returns (raised: Option<string>)
      modifies this
      ensures calls == old(calls) + [Command.Start]
      ensures status == old(status)
      ensures raised == rejection
    {
      calls := calls + [Command.Start];
      raised := rejection;
    }

    method Stop(rejection: Option<string>) returns (raised: Option<string>)
      modifies this
      ensures calls == old(calls) + [Command.Stop]
      ensures status == old(status)
      ensures raised == rejection
    {
      calls := calls + [Command.Stop];
      raised := rejection;
    }

    /** Re-reads the lifecycle status; on failure the cached status is kept. */
    method Reload(answer: Result<string, string>) returns (raised: Option<string>)
      modifies this
      ensures calls == old(calls) + [Command.Reload]
      ensures answer.Success? ==> status == answer.value && raised == None
      ensures answer.Failure? ==> status == old(status) && raised == Some(answer.error)
    {
      calls := calls + [Command.Reload];
      match answer
      case Success(s) =>
        status := s;
        raised := None;
      case Failure(e) =>
        raised := Some(e);
    }
  }
}
