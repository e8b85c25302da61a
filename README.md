# mccontrol core, modelled in Dafny

`mccontrol/main.py` is a small dashboard backend for one game-server
container named `minecraft`. It can start or stop the container, and it can
report whether the server answers on its TCP port. This project models the
four decision procedures inside its handlers:

- **Address selection** (`get_container_ip`, module `Addresses`). The
  container's IP comes from the preferred network when that network is
  attached with a non-empty address. Otherwise it is the first non-empty
  address in the order the runtime lists the networks. It is nothing when
  there is no such address or when inspecting the container raised.
- **Reachability fallback** (`is_mc_online`, module `Reachability`). The
  probes go to the DNS name, then to the container IP, then to
  `127.0.0.1`, and stop at the first that answers. The container IP is
  probed only when it is non-empty and differs from the name. The result
  is a triple `(online, target, last_error)`. On total failure it names
  the first host and gives a `"; "`-joined summary of the attempts.
- **Toggle** (`api_toggle` and `toggle_mc_redirect`, module `Toggle`). A
  running container is stopped and any other is started. The JSON
  endpoint then reloads and reports the status it reads back.
- **Status report** (`status`, module `StatusReport`). The report is built
  field by field. Each failing sub-check becomes a field instead of an
  error.

Modules and files:

- `wrappers.dfy`: `Option` and `Result`.
- `docker.dfy`: the container runtime, modelled as values and one class.
  - `Lookup` is the outcome of looking the container up: found, not
    found, or another error.
  - `Attrs` holds the inspection data that is read.
  - `Container` is a handle. It caches the status and logs, in order,
    the start, stop and reload calls sent through it.
- `addresses.dfy`, `reachability.dfy`, `toggle.dfy`, `status.dfy`: the four
  procedures.

These outside answers are parameters of the model:

- the TCP probe: a total function `probe: string -> ProbeResult` from host
  to `Open` or `Closed(error)`, for the fixed port 25565;
- the outcome of the container lookup;
- the error, if any, that the runtime raises for a start or a stop;
- the status that a reload reads back, or the error it raises.

The methods follow the handlers' steps. The appends to `targets_tried`, the
early returns and the scan of the networks are modelled one step at a
time, and the report map is assigned field by field. Each method is proved
against a reference function:

- `GetContainerIp` against `ContainerIp`;
- `IsMcOnline` against `McOnline`, which is built from `Candidates` and
  `ProbeInOrder`;
- `Status` against both.

The properties promised in the source are lemmas about those functions.

A total failure lists only two attempts when the container IP is absent,
empty or equal to the DNS name (`Reachability.TotalFailure`).

## Model

| member | source | states |
|---|---|---|
| `Docker.Container.Start` | mccontrol/main.py:37 | `start()` sends one start call, keeps the cached status and raises exactly the runtime's rejection |
| `Docker.Container.Stop` | mccontrol/main.py:35 | `stop()` sends one stop call, keeps the cached status and raises exactly the runtime's rejection |
| `Docker.Container.Reload` | mccontrol/main.py:60 | `reload()` sends one reload call; on success the cached status becomes the value read back, on failure it is kept and the error is raised |
| `Addresses.EntryNamed` | mccontrol/main.py:76-77 | the dictionary lookup `nets[name]`: absent exactly when no network has that name, otherwise the first entry with that name |
| `Addresses.FirstAddressIsFirst` | mccontrol/main.py:80-84 | the scan yields the first network whose address is non-empty, with every earlier one empty, and yields nothing exactly when all are empty |
| `Addresses.ContainerIpChoice` | mccontrol/main.py:70-87 | nothing when inspection raised; the preferred network's address when that network is attached with a non-empty address; otherwise the first non-empty address in enumeration order, or nothing; never an empty address |
| `Addresses.GetContainerIp` | mccontrol/main.py:70-87 | the preferred-then-scan procedure returns exactly the reference choice `ContainerIp` |
| `Reachability.Candidates` | mccontrol/main.py:104-119 | the probe order: two or three hosts, the DNS name first and the loopback last, with the container IP in the middle exactly when it is non-empty and differs from the name |
| `Reachability.ProbeInOrder` | mccontrol/main.py:102-122 | the attempts are a prefix of the candidates, each recording that host's probe; every attempt but the last failed; the list stops early only at a success |
| `Reachability.IsMcOnline` | mccontrol/main.py:96-126 | the step-by-step probing makes exactly the attempts `Attempts` and returns the triple `McOnline` for the address that `get_container_ip` yields |
| `Reachability.DnsNameFirst` | mccontrol/main.py:104-108 | the DNS name is always probed first; when it answers, the result is `(True, "minecraft", None)` and nothing else is probed |
| `Reachability.ContainerIpSecond` | mccontrol/main.py:111-116 | the container IP is probed second exactly when it is eligible and the name failed; when it answers, the result is `(True, ip, None)` and the loopback is not probed; otherwise only the name and the loopback are ever probed |
| `Reachability.LoopbackLast` | mccontrol/main.py:119-122 | the loopback is probed exactly when every earlier candidate failed; when it answers, the result is `(True, "127.0.0.1", None)` |
| `Reachability.TotalFailure` | mccontrol/main.py:102-126 | offline exactly when every candidate failed; then all two or three candidates were attempted, the target is the first attempt's host (the DNS name), and the diagnostic is the summary of the attempts |
| `Reachability.OnlineNamesWinner` | mccontrol/main.py:105-126 | online implies no diagnostic, a target whose probe answered, which was the last probed, after only failures; offline implies a diagnostic that opens with `minecraft: ` |
| `Reachability.DiagnosticIffOffline` | mccontrol/main.py:124-126 | the diagnostic is present and non-empty exactly when the result is offline |
| `Reachability.JoinAppend` | mccontrol/main.py:125 | joining one more element appends the separator and that element |
| `Reachability.SummaryStartsWithFirstHost` | mccontrol/main.py:125 | the summary opens with `host: ` of the first attempt, so it is never empty |
| `Reachability.SummaryExtends` | mccontrol/main.py:125 | each attempt appends `; host: outcome`, so the summary lists the attempts in the order made |
| `Reachability.FailureSummary` | mccontrol/main.py:124-126 | on total failure the diagnostic is exactly `minecraft: e1; [ip: e2; ]127.0.0.1: e3` with each probe's error text |
| `Toggle.ApiToggle` | mccontrol/main.py:44-68 | a missing container gives 404 `container not found` and no call is made (the handler's frame is empty); another lookup error escapes; running gives exactly stop, otherwise exactly start, then a reload; a rejected start/stop or a failed reload gives 500 with the error text and leaves the cached status unchanged; success reports action `stopped`/`started` and the status read back by the reload, not an assumed one |
| `Toggle.ToggleMcRedirect` | mccontrol/main.py:27-41 | every lookup error, not-found included, ends in a redirect that carries its text; otherwise exactly one stop (when running) or one start, with no reload, and the redirect carries the rejection if there was one |
| `Toggle.ToggleTwice` | mccontrol/main.py:50-68 | two toggle requests in a row. Each request looks the container up afresh (line 51), so each has its own handle; the second handle's status is what the runtime reports at the second lookup, and the second request decides on that alone. Both responses are stated in full: 500 with the rejection's text, else 500 with the reload's error, else the action for the handle's status and the status read back. So are both handles' new call logs and cached statuses. When the runtime still reports the status the first request left behind, the toggle alternates: after a successful first toggle the second issues the command for the status read back, so a stop that settled to anything but `running` is followed by a start (`started`); after a rejected first toggle it issues the same command again |
| `StatusReport.Status` | mccontrol/main.py:128-150 | never fails; found: `container_status` is `State.Status` or `unknown`, and `health` is the health status or null; not found: `not_found` and null health; other errors: only `container_error`; `minecraft_online` and `mc_target` always come from the reachability verdict; `mc_last_error` is present exactly when offline; no other keys |

## Left out

- HTTP framework glue is not modelled: routing, the static files, `GET /`, JSON encoding and the framework's handling of uncaught exceptions. `Uncaught` only marks that an exception escapes.
- A lookup error other than not-found is not caught by `api_toggle`: it escapes the handler and is modelled only as `Uncaught`; the framework's error response is not modelled.
- Redirect URLs are not built. A redirect carries only the error text that `toggle_mc_redirect` would put after `?error=`, and the dashboard URL constant is not modelled.
- The Docker SDK is represented by the `Lookup`, `Attrs` and `Container` values and the parameters that stand for its answers; no client is constructed.
- The socket connection of `is_tcp_open` is replaced by the `probe` oracle. The oracle's answer depends only on the host, not on when it is asked, so a host probed twice gets the same answer both times. This can happen only when the container address is `127.0.0.1`, which the runtime does not assign. Its timeout and the port number are not modelled.
- The 0.6-second settle delay and all timeouts are not modelled, because they are real-time behaviour.
- Concurrent toggle requests are not modelled. The source does not serialise them.
- StatusReport.Status: a single inspection outcome feeds both the `State` read and the address lookup inside `is_mc_online`. In the source these are two separate runtime calls, which could disagree.
- Reachability.IsMcOnline: in the source the container is inspected only after the DNS probe fails. In the model the address lookup is a pure query, so when it happens is not observable.
- Inspection values are taken to be strings when present. A `State.Status` key holding null, and attributes that are not dictionaries (which would raise inside the `try`), are not represented.
- The report's key order, which comes from dictionary insertion order, is not modelled; the report is a `map`.
