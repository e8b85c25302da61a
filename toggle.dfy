/** The two toggle handlers: the JSON endpoint (api_toggle) and the legacy
    redirecting endpoint (toggle_mc_redirect). Both stop a running container
    and start any other. */
module Toggle {
  import opened Wrappers
  import opened Docker

  /** Answer of the JSON endpoint: `{result: "ok", action, container_status}`,
      an HTTP error raised on purpose, or an exception the handler does not
      catch (which the framework turns into a bare server error). */
  datatype ToggleResponse =
    | Toggled(action: string, containerStatus: string)
    | HttpError(code: int, detail: string)
    | Uncaught(error: string)

  /** Answer of the legacy endpoint: a redirect to the dashboard, carrying
      the error text when a runtime call raised. */
  datatype Redirect = Redirect(error: Option<string>)

  /** The command a toggle issues: stop when running, start otherwise. */
  function Transition(status: string): Command
  {
    if status == "running" then Stop else Start
  }

  /** The action reported for a command. */
  function ActionName(cmd: Command): string
  {
    if cmd == Stop then "stopped" else "started"
  }

  /** The objects a handler may change: the handle, when there is one. */
  function Handles(got: Lookup<Container>): set<Container>
  {
    if got.Found? then {got.value} else {}
  }

  /** api_toggle. `got` is what looking the container up yields,
      `rejection` the error the runtime raises for the start or stop (None
      when it accepts it), and `reloaded` what the reload after the settle
      delay reads back. */
  method ApiToggle(got: Lookup<Container>, rejection: Option<string>, reloaded: Result<string, string>)
    returns (response: ToggleResponse)
    modifies Handles(got)
    ensures got.NotFound? ==> response == HttpError(404, "container not found")
    ensures got.Failed? ==> response == Uncaught(got.error)
    ensures got.Found? ==>
              var c, cmd := got.value, Transition(old(got.value.status));
              && c.calls == old(c.calls) + (if rejection.Some? then [cmd] else [cmd, Reload])
              && (rejection.Some? || reloaded.Failure? ==> c.status == old(c.status))
              && (rejection.Some? ==> response == HttpError(500, rejection.value))
              && (rejection.None? && reloaded.Failure? ==> response == HttpError(500, reloaded.error))
              && (rejection.None? && reloaded.Success? ==>
                    response == Toggled(ActionName(cmd), reloaded.value) && c.status == reloaded.value)
  {
    match got
    case NotFound(_) =>
      return HttpError(404, "container not found");
    case Failed(e) =>
      return Uncaught(e);
    case Found(c) =>
      var raised: Option<string>;
      if c.status == "running" {
        raised := c.Stop(rejection);
        if raised.None? {
          raised := c.Reload(reloaded);
          if raised.None? {
            return Toggled("stopped", c.status);
          }
        }
      } else {
        raised := c.Start(rejection);
        if raised.None? {
          raised := c.Reload(reloaded);
          if raised.None? {
            return Toggled("started", c.status);
          }
        }
      }
      return HttpError(500, raised.value);
  }

  /** toggle_mc_redirect: the same decision without a reload; every error,
      including a missing container, ends up in the redirect. */
  method ToggleMcRedirect(got: Lookup<Container>, rejection: Option<string>) returns (r: Redirect)
    modifies Handles(got)
    ensures !got.Found? ==> r == Redirect(Some(got.error))
    ensures got.Found? ==>
              && got.value.calls == old(got.value.calls) + [Transition(old(got.value.status))]
              && got.value.status == old(got.value.status)
              && r == Redirect(rejection)
  {
    match got
    case NotFound(e) =>
      return Redirect(Some(e));
    case Failed(e) =>
      return Redirect(Some(e));
    case Found(c) =>
      var raised: Option<string>;
      if c.status == "running" {
        raised := c.Stop(rejection);
      } else {
        raised := c.Start(rejection);
      }
      return Redirect(raised);
  }

  /** The calls a toggle sends through a handle whose cached status is
      `status`: the transition, then a reload unless the transition was
      rejected. */
  function IssuedCalls(status: string, rejection: Option<string>): seq<Command>
  {
    if rejection.Some? then [Transition(status)] else [Transition(status), Reload]
  }

  /** The status cached in the handle after a toggle: the value read back
      when the transition and the reload succeed, otherwise unchanged. */
  function SettledStatus(status: string, rejection: Option<string>, reloaded: Result<string, string>): string
  {
    if rejection.None? && reloaded.Success? then reloaded.value else status
  }

  /** The answer of a toggle through a handle whose cached status is
      `status`: 500 with the rejection's text, else 500 with the reload's
      error, else the action taken and the status read back. */
  function Response(status: string, rejection: Option<string>, reloaded: Result<string, string>): ToggleResponse
  {
    if rejection.Some? then HttpError(500, rejection.value)
    else if reloaded.Failure? then HttpError(500, reloaded.error)
    else Toggled(ActionName(Transition(status)), reloaded.value)
  }

  /** Two toggle requests, one after the other. Each request looks the
      container up afresh, so each gets its own handle: `first` goes through
      `c1`, and `second` through `c2`, whose cached status is what the
      runtime reports at the second lookup. The second request decides on
      that status alone. When the runtime still reports the status the
      first request left behind, the toggle alternates. After a successful
      first toggle, the second issues the command for the status read back,
      so a stop that settled to anything but "running" is followed by a
      start. After a rejected first toggle, the second issues the same
      command again. */
  method ToggleTwice(c1: Container, rejection1: Option<string>, reloaded1: Result<string, string>,
                     c2: Container, rejection2: Option<string>, reloaded2: Result<string, string>)
    returns (first: ToggleResponse, second: ToggleResponse)
    requires c1 != c2
    modifies c1, c2
    ensures first == Response(old(c1.status), rejection1, reloaded1)
    ensures second == Response(old(c2.status), rejection2, reloaded2)
    ensures c1.calls == old(c1.calls) + IssuedCalls(old(c1.status), rejection1)
    ensures c1.status == SettledStatus(old(c1.status), rejection1, reloaded1)
    ensures c2.calls == old(c2.calls) + IssuedCalls(old(c2.status), rejection2)
    ensures c2.status == SettledStatus(old(c2.status), rejection2, reloaded2)
    ensures first.Toggled? && old(c2.status) == c1.status ==>
              Transition(old(c2.status)) == Transition(first.containerStatus)
    ensures first.Toggled? && old(c2.status) == c1.status && first.containerStatus != "running" ==>
              Transition(old(c2.status)) == Start && (second.Toggled? ==> second.action == "started")
    ensures rejection1.Some? && old(c2.status) == c1.status ==>
              Transition(old(c2.status)) == Transition(old(c1.status))
  {
    first := ApiToggle(Found(c1), rejection1, reloaded1);
    second := ApiToggle(Found(c2), rejection2, reloaded2);
  }
}
