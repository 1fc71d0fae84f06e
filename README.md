# Aquarium float-switch cutoff, modelled in Dafny

The program is a MicroPython script for an ESP32. It watches a float switch in an aquarium
sump. While the water level is fine the switch reads high and the powertail (the pump's power
relay) stays on. When the level rises too far the switch reads low: the pump loses power, a
buzzer beeps every 30 seconds and a Pushover alert is sent. When the level recovers, power and
quiet come back and a recovery message is sent. A startup message is sent once. The script
keeps reconnecting to WiFi while the link is down. Once the link has been up at least once,
a later outage also starts an hourly beep.

This project models the script's core in three modules:

- `FormEncoding` (`form_encoding.dfy`) models `make_safe`, the form-field escaper.
  - `MakeSafe` is the loop as written. It is proved equal to the specification function
    `Encoded`.
  - The properties are proved about `Encoded`: it works character by character, its output
    alphabet, its length, the identity on plain text, and non-injectivity.
  - `Decode` maps `+` to a space and `%` with two hex digits to that code point. This agrees
    with an `application/x-www-form-urlencoded` parser only for escapes below `%80`: a real
    parser decodes the bytes as UTF-8, while `Decode` takes each escape as a code point. It is
    the inverse partner: the round trip holds for characters from U+0010 to U+00FF.
- `Pushover` (`pushover.dfy`) models the form body `sendMessage` builds and the three
  `pushover_*` helpers.
  - The body is proved to split at `&` into exactly the four fields in order, plus the
    optional priority field.
  - A helper sends only when the radio is up. What it reports is true exactly when it was
    connected and `sendMessage` returned.
- `ControlLoop` (`control_loop.dfy`) models the `while True` loop.
  - `Next` is one iteration as a function of the module-level state, built from its three
    sections (startup, network, float). `Run` iterates it.
  - `Controller` holds the same variables as mutable fields. Its `Step` method performs the
    iteration in place and is proved to agree with `Next`.
  - The lemmas state the loop invariant and what the loop guarantees over any sequence of
    ticks.

Facts about the code that the model makes explicit:

- `make_safe` writes `%x`, which is lower case and not zero-padded. Characters below U+0010
  get one hex digit, so the output is ambiguous (`EncodedNotInjective`). From U+0100 on, the
  escape has three or more digits (`HexAtLeastThree`), and a decoder that reads two digits
  never gets the character back (`WideCharNotRecovered`).
- No helper passes `highPriority`, so every request goes out at normal priority
  (`RequestBody`).
- `sendMessage` catches the exceptions of its own network exchange. A helper therefore
  reports success whenever the radio is up, unless something outside that `try` raises. The
  outcome of the call is an input (`completed`), not something the model derives.
- The hourly network beep and the 30-second alarm beep are independent timers and can both
  run at once (`BothTimersCanRun`).
- The hourly beep cannot start before the link has been up once, because `net_timer_init`
  starts true (`NetTimerNeedsConnectedTick`).
- After a low edge the loop sleeps for 30 seconds and does not retry within that iteration.
  A failed alert is retried on the next tick without a level change (`Retry`).
- The script initialises `send_alert_message` (line 47), not `sent_alert_message`. The model
  keeps the latter as a name that may be unbound (`Binding`). It proves that the loop never
  reads it while unbound: it is read only in the low state, and every path into the low state
  binds it (`Next`, `Reachable`).

## Model

| member | source | states |
|---|---|---|
| `FormEncoding.IsSafe` | main.py:11 | Membership in SAFE_CHARS: ASCII letters, digits, `_`, `.`, `-` and space. Every safe character is ASCII and none is `%`, `+`, `&` or `=`. |
| `FormEncoding.Hex` | main.py:60 | The `%x` rendering of a code point: at least one digit, every digit in `0-9a-f`, and a single digit exactly below 16. |
| `FormEncoding.Escape` | main.py:57-60 | The piece appended for one character: the character itself, of length one, exactly when it is in SAFE_CHARS. Otherwise it is longer and starts with `%`. |
| `FormEncoding.ReplaceSpaces` | main.py:61 | The replace step keeps the length and leaves no space in the result. |
| `FormEncoding.Encoded` | main.py:54-61 | The string `make_safe` returns (escape each character, join, replace spaces). It contains no space and is empty for empty input. |
| `FormEncoding.ReplaceSpacesAt` | main.py:61 | The replace step changes each space to `+` and keeps every other character, position by position. |
| `FormEncoding.MakeSafe` | main.py:54-61 | The escape-join-replace loop returns exactly the specification string `Encoded(s)`. |
| `FormEncoding.EncodedCons` | main.py:54-61 | The output works character by character. A space becomes `+`, a SAFE_CHARS character stays as it is, and any other character becomes `%` followed by its code point in hex. |
| `FormEncoding.HexRoundTrip` | main.py:60 | `%x` gives at least one hex digit, each in `0-9a-f` (lower case). The numeral denotes the code point, has one digit exactly below 16, and never starts with `0` when it has more than one digit. |
| `FormEncoding.EncodedAlphabet` | main.py:54-61 | The output is never shorter than the input. Every output character is a letter, a digit, `_`, `.`, `-`, `+` or `%`. |
| `FormEncoding.EncodedSeparators` | main.py:57-61 | The output holds no space, no `&` and no `=`, and it is plain ASCII. |
| `FormEncoding.EncodedIdentity` | main.py:57-58 | Strings made only of letters, digits, `_`, `.` and `-` come back unchanged. |
| `FormEncoding.DecodeEncoded` | main.py:54-61 | `Decode` recovers the input if every character has a code point from 16 to 255. |
| `FormEncoding.EncodedNotInjective` | main.py:60 | U+0001 followed by `a` and the single character U+001A both encode to `%1a`, and `%1a` decodes to U+001A. |
| `FormEncoding.DecodeLosesWideChars` | main.py:60 | U+0100 encodes to `%100`, which decodes to U+0010 followed by `0`: the round trip fails at U+0100. |
| `FormEncoding.HexAtLeastThree` | main.py:60 | Every code point from 256 on gets an escape of at least three hex digits. |
| `FormEncoding.WideCharNotRecovered` | main.py:54-61 | For every character from U+0100 on, decoding its encoding does not give the character back. |
| `FormEncoding.LowCharNotRecovered` | main.py:54-61 | For every character below U+0010, decoding its encoding does not give the character back. |
| `FormEncoding.SingleCharRoundTrip` | main.py:54-61 | A single character survives encoding then decoding if and only if its code point is from 16 to 255. |
| `Pushover.Template` | main.py:108-145 | Every helper's message has a non-empty title and text, and none asks for high priority. |
| `Pushover.FormBody` | main.py:64-69 | The body `sendMessage` builds starts with `token=`. It is at least as long as the four field names plus the raw values, plus 11 when high priority is requested. |
| `Pushover.FormBodyFields` | main.py:64-69 | Split at `&`, the body is exactly token, user, title, message, then `priority=1` when requested, in that order, each value escaped. |
| `Pushover.FormBodyPriority` | main.py:68-69 | The body ends with `&priority=1` if and only if high priority was requested. |
| `Pushover.FormBodyAscii` | main.py:64-82 | The body is ASCII, so the character count sent as Content-Length is its byte length. |
| `Pushover.RequestBody` | main.py:108-145 | The body of every helper's request (its message's form body) never ends with the priority field. |
| `Pushover.Notify` | main.py:108-145 | A helper makes a request if and only if the radio is up, and the request carries that helper's message. It returns true if and only if it was connected and the send returned. |
| `ControlLoop.StartupPhase` | main.py:155-156 | startup_message_sent becomes true exactly when it already was, or the helper was connected and its send returned. The section sends only the startup message, and sends it exactly when the flag was false and the radio is up. |
| `ControlLoop.NetworkPhase` | main.py:159-172 | The network section issues only connects, and only on a disconnected tick. It keeps connect_count in 0..60. A disconnected tick leaves net_timer_init set. A connected tick leaves it cleared and the hourly beep stopped. |
| `ControlLoop.FloatPhase` | main.py:175-204 | After the float section, last_float_state is the reading, and sent_alert_message is bound whenever the state is low. |
| `ControlLoop.Next` | main.py:153-204 | An iteration never reads sent_alert_message unbound, and it leaves the name readable for the next iteration. |
| `ControlLoop.Run` | main.py:153-204 | The same holds over any number of iterations. |
| `ControlLoop.FloatPhaseInv` | main.py:175-204 | The float section keeps the invariant listed after this table. |
| `ControlLoop.NextPreservesInv` | main.py:153-204 | A whole iteration preserves the loop invariant. |
| `ControlLoop.Reachable` | main.py:44-204 | After any ticks from boot: the powertail equals last_float_state, which is the latest reading; the alarm beep runs exactly when low; connect_count is in 0..60; the alert and recovery flags are never both set; sent_alert_message is bound whenever it is read. |
| `ControlLoop.NextTracksLevel` | main.py:175-193 | After every iteration, last_float_state and the powertail equal the reading just taken, and the alarm beep runs exactly when it is low. |
| `ControlLoop.SendsNeedConnection` | main.py:108-167 | Every notification request happens on a connected tick. Every connect request happens on a disconnected one. |
| `ControlLoop.StartupLatch` | main.py:155-156 | Once startup_message_sent is true, it stays true and no startup message is sent. |
| `ControlLoop.RunStartupLatch` | main.py:153-156 | The same holds over any number of ticks. |
| `ControlLoop.DisconnectedTick` | main.py:159-167 | A disconnected tick sends nothing and advances connect_count modulo 61. It issues one connect exactly when the count was 60. |
| `ControlLoop.ConnectedTick` | main.py:168-172 | A connected tick issues no connect and leaves the hourly beep stopped. It resets connect_count to 0 only if net_timer_init was set; otherwise the count is unchanged. |
| `ControlLoop.ReconnectCadence` | main.py:152-167 | While the radio stays down, n ticks from count c issue (c+n) div 61 connects and leave the count at (c+n) mod 61. From boot, the first tick already connects, and then every 61st tick does. |
| `ControlLoop.NetTimerStart` | main.py:159-162 | The hourly beep starts only on a disconnected tick after net_timer_init has been cleared. |
| `ControlLoop.NetTimerNeedsConnectedTick` | main.py:49-172 | From boot, the hourly beep runs only if some earlier tick was connected. |
| `ControlLoop.Retry` | main.py:198-203 | On a tick without a level change, the current level's message is sent if and only if it is outstanding and the radio is up. A failed attempt leaves the flag unset, and a set flag stops further sends. |
| `ControlLoop.Edge` | main.py:176-193 | On a level change, the new level's message is attempted if and only if the radio is up, and the other level's flag is cleared. |
| `ControlLoop.BothTimersCanRun` | main.py:159-192 | A two-tick run from boot ends with both the hourly and the 30-second beep running. |
| `ControlLoop.Controller.constructor` | main.py:44-52 | The object starts in the boot state: the pin defaults, the initial flags and connect_count 60. It satisfies the invariant. |
| `ControlLoop.Controller.StartupStep` | main.py:155-156 | Updates startup_message_sent and nothing else, as the startup section does. |
| `ControlLoop.Controller.NetworkStep` | main.py:159-172 | Updates only the network variables, as the network section does. |
| `ControlLoop.Controller.FloatStep` | main.py:175-204 | Updates only the float and output variables, as the float section does. |
| `ControlLoop.Controller.Step` | main.py:153-204 | One in-place iteration agrees with `Next` and keeps the invariant. Afterwards the level, powertail and alarm beep follow the reading, and the startup flag never falls back. A connected tick leaves the hourly beep stopped, and sends and connects happen only on connected and disconnected ticks respectively. |

The loop invariant (`Inv`) has these parts:

- the powertail equals last_float_state;
- the alarm beep runs exactly in the low state, and only after alarm_timer_init has been set;
- sent_alert_message is bound in the low state;
- an alert is recorded as sent only in the low state, and a recovery only in the high state;
- connect_count is in 0..60;
- the hourly beep runs only with net_timer_init set.

## Left out

- The socket, DNS, TLS and HTTP exchange of `sendMessage` (main.py:71-94). It is foreign I/O. Whether the call returned is an input of each tick. The request line, the headers and the blank line written after the body are not modelled.
- An exception escaping `sendMessage` from outside its `try` (socket creation, `close`, `print`) is not modelled as such. It is the case `completed = false`.
- The Pin, Timer and WLAN drivers. Pin levels and whether a timer runs are booleans. `wlan.isconnected()` and the float switch are inputs. `wlan.active` and the credentials passed to `wlan.connect` are not modelled.
- The connectivity reading is one value per tick. The script asks the radio separately at line 159 and inside each helper, and the link could change between those calls.
- `get_float_state` reads the pin twice and returns the second reading. The model takes one reading per tick.
- `beep`, the buzzer pin and the timer callbacks. They run concurrently with the loop and only drive the buzzer.
- Real time: `sleep(1)`, the 30-second block after a low edge, and the timer periods. One loop iteration is one tick.
- `print` and the console messages.
- The token and user settings are parameters of the form body, not module constants.
- `IsSafe` states SAFE_CHARS membership as character ranges. Characters are Unicode scalar values, so a string holding a lone surrogate is outside the model.
- `FormEncoding.DecodeEncoded`: the round trip is stated for code points 16 to 255 only. Below U+0010 the unpadded escape is ambiguous (`EncodedNotInjective`). From U+0100 on the escape is longer than the two digits a decoder reads (`HexAtLeastThree`, `WideCharNotRecovered`). For single characters the range is exact (`SingleCharRoundTrip`).
- `FormEncoding.Decode` takes each `%hh` escape as a code point. A real form parser decodes the bytes as UTF-8, so the two agree only for escapes below `%80`.
