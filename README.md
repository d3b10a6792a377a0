# Play it again, James — relay model

"Play it again, James" keeps the play/pause state of a local media player in step with
remote peers. Each peer relays single-byte transport commands (`Play`, `Pause`,
`PlayPause`) over one MQTT topic, the *channel*. This project models the relay's core in
Dafny and proves properties of the model:

- the command codec: a command's discriminant as its one-byte wire form, and the
  range-checked decode;
- `perform`, which carries a command out on the first local player with the configured
  identity;
- the client identity: the user name followed by 8 lower-case hex digits of a random `u32`;
- the handle's outgoing fifo;
- the send loop, which publishes each queued command once, in order;
- the receive loop, which filters the MQTT notifications by kind and by topic, decodes the
  first payload byte and dispatches it.

Modules:

- `Base` (base.dfy): `byte`, `uint32`, `Option`, `Result`.
- `PlayerCommand` (player_cmd.dfy): `src/player_cmd.rs`.
- `HexFormat` (hex_format.dfy): the `{:08x}` formatting used by the identity, and a parser
  that inverts it.
- `Net` (net.dfy): `src/net.rs`. `NetPlayerHandle` is a class whose `outgoing` field is
  the fifo. The Rust struct holds only the fifo's sending end and the join handles. The
  class's `identity` stands for what the MQTT options hold, and its `channel` and `player`
  for what the two threads capture. `SendLoop` and `RecvLoop` are methods with loops. Each is proved equal to a
  specification function (`PublishAll`, `Relay`), and the lemmas state the source's
  promises about those functions.

The collaborators become parameters:

- the user name and the random number are arguments of `ClientIdentity`;
- the outcome of every publish call is an input sequence;
- the MQTT notification stream is a finite input sequence;
- the D-Bus player list is an input `Bus`. It holds the result of creating the finder and
  listing the players, and each player says which control calls it would reject. The
  receive loop takes one `Bus` per `perform` call (`buses(k)` for the k-th call), since
  every call lists the players afresh.

The receive loop stops in two ways, both panics in the source. One is an error
notification (`expect`, src/net.rs:81). The other is an empty publish payload on the
channel, which panics at `payload[0]` (src/net.rs:89); `Relay` stops with `EmptyPayload`.

## Model

| member | source | states |
|---|---|---|
| `PlayerCommand.Encode` | src/player_cmd.rs:5-11 | a command's byte is its declaration position in `Play, Pause, PlayPause` |
| `PlayerCommand.NumPlayerCmdsIsVariantCount` | src/player_cmd.rs:12 | `NUM_PLAYER_CMDS` (discriminant of `PlayPause` plus one) is 3, the number of variants, and every variant is among the declared ones |
| `PlayerCommand.EncodeInjective` | src/player_cmd.rs:5-11 | distinct commands have distinct encodings |
| `PlayerCommand.TryFrom` | src/player_cmd.rs:33-43 | decoding succeeds iff the byte is below `NUM_PLAYER_CMDS`, and then yields the command whose encoding is that byte |
| `PlayerCommand.DecodeEncode` | src/player_cmd.rs:33-43 | round trip: decoding a command's encoding gives `Ok(cmd)` |
| `PlayerCommand.DecodeRejectsOutOfRange` | src/player_cmd.rs:39-40 | every byte from 3 to 255 gives `Err(())` |
| `PlayerCommand.EncodeDecode` | src/player_cmd.rs:36-38 | an accepted byte is the encoding of the command it decodes to |
| `PlayerCommand.FindFirst` | src/player_cmd.rs:18-23 | the result is the first position whose identity matches, or none exactly when no player matches |
| `PlayerCommand.ControlFor` | src/player_cmd.rs:25-29 | Play maps to `play`, Pause to `pause`, PlayPause to `play_pause`, each in both directions, so no other pairing occurs |
| `PlayerCommand.ControlForInjective` | src/player_cmd.rs:25-29 | distinct commands invoke distinct player operations |
| `PlayerCommand.Perform` | src/player_cmd.rs:14-31 | a finder or listing error is returned unchanged; with no matching player nothing is invoked and the result is `NoPlayerFound`; otherwise exactly one call, the command's operation, goes to the first matching player, and the result is a D-Bus error iff that player rejects the call |
| `HexFormat.ToHex` | src/net.rs:23 | the formatted number has exactly the requested width and only lower-case hex digits |
| `HexFormat.ParseToHex` | src/net.rs:23 | parsing the formatted number gives the number back |
| `HexFormat.ToHexParse` | src/net.rs:23 | every fixed-width lower-case hex string is the format of its parsed value, so formatting is a bijection onto such strings |
| `Net.ClientIdentity` | src/net.rs:18-23 | the identity is the user name followed by 8 lower-case hex digits; its length is the user name's plus 8, and the suffix parses back to the random `u32` |
| `Net.ClientIdentityInjective` | src/net.rs:18-23 | the identity determines both the user name and the random number |
| `Net.NetPlayerHandle.Start` | src/net.rs:15-42 | the handle's identity is the generated client identity, its channel and player name are the ones the threads are started with, and its fifo starts empty |
| `Net.NetPlayerHandle.SendCommand` | src/net.rs:44-47 | the command is appended to the back of the outgoing fifo |
| `Net.PublishOf` | src/net.rs:68 | a command is published on the channel, at-least-once, not retained, with a one-byte payload that decodes back to the command |
| `Net.PublishAll` | src/net.rs:67-68 | one publication per command, position by position |
| `Net.SendLoop` | src/net.rs:60-74 | the publish calls are exactly one per queued command in fifo order, whatever the outcomes; the reported failures are exactly the positions whose publish failed, each once and in order |
| `Net.FifoScenario` | src/net.rs:44-72 | three commands sent through a fresh handle are published in the order sent |
| `Net.React` | src/net.rs:81-97 | a notification dispatches iff it is a publish on the channel with a non-empty payload whose first byte decodes, and then dispatches the decoded command; it aborts iff it is a connection error (reason `ConnectionClosed`) or an empty payload on the channel (reason `EmptyPayload`); everything else is ignored |
| `Net.StartThenReceive` | src/net.rs:35-102 | the receive thread of a fresh handle runs on the handle's channel and player name, and its perform calls and stop reason are those of `Relay` |
| `Net.ConnectionErrorAborts` | src/net.rs:81 | an error notification stops the receive loop |
| `Net.NonPublishIgnored` | src/net.rs:84 | a notification that is not an incoming publish is ignored |
| `Net.OtherTopicIgnored` | src/net.rs:85-87 | a publish on another topic is ignored, whatever its payload |
| `Net.InvalidByteIgnored` | src/net.rs:89-97 | on the channel, a first byte of 3 or more is ignored |
| `Net.ValidByteDispatched` | src/net.rs:89-92 | on the channel, a first byte that encodes a command dispatches that command |
| `Net.OnlyFirstByteRead` | src/net.rs:89 | the bytes after the first never change the reaction |
| `Net.Advance` | src/net.rs:80-99 | one iteration: a stopped loop is unchanged; the calls made so far are kept and at most one is added, exactly when the notification dispatches, and that call is `perform` with the configured player, the decoded command and the bus of that call, with its outcome; the loop stops exactly on an aborting notification, for its reason, whatever `perform` returned |
| `Net.Relay` | src/net.rs:80-100 | every perform call of the receive loop uses the configured player and has the outcome `perform` gives on the bus it saw; there are at most as many calls as notifications |
| `Net.RelayStoppedIsFinal` | src/net.rs:80-81 | once the loop has stopped, later notifications change nothing |
| `Net.RelayIgnoredInvisible` | src/net.rs:84-97 | an ignored notification (other kind, other topic, invalid byte) can be removed from the stream anywhere without changing the calls made or how the loop ends |
| `Net.RelayStopsOnlyOnAbort` | src/net.rs:80-95 | the loop stops iff some notification is an error or an empty payload on the channel, and then for the first such reason; a `perform` error never stops it |
| `Net.RelayPerformsDecoded` | src/net.rs:84-98 | with nothing stopping it, the loop makes one perform call per decodable publish on the channel, in stream order, and no other |
| `Net.RelayPerformsDecodedUntilAbort` | src/net.rs:80-98 | when the first aborting notification is at position `i`, the loop stops for its reason after exactly the perform calls for the decodable publishes on the channel before `i`, in order |
| `Net.EchoDispatches` | src/net.rs:68-92 | a command's own publication, delivered back on the channel, dispatches that command |
| `Net.SelfDeliveryPerformed` | src/net.rs:67-95 | a client receiving all its own publications back performs each of their commands in order, with no deduplication, and does not stop |
| `Net.PlayScenario` | src/net.rs:89-95 | a `Play` on the channel with a matching player makes exactly one perform call, which invokes `play` on the first matching player |
| `Net.RecvLoop` | src/net.rs:76-102 | the receive thread's perform calls and its stop reason are those of `Relay` over the same stream |

## Left out

- MQTT connection set-up is not modelled: `MqttOptions`, keep-alive 5, the client queue
  capacity of 10, and the at-most-once subscription (src/net.rs:25-31). It is a foreign
  library's plumbing. The server address and port are therefore not parameters of
  `NetPlayerHandle.Start`.
- The threads, the `mpsc` channel and `join` (src/net.rs:33-35, 50-57) are not modelled.
  Each loop is a sequential pass over an input sequence, and the send loop receives the
  fifo's contents as a sequence.
- `send_command` cannot fail in the model. The `expect` at src/net.rs:47 fires only when the
  send thread has gone away, and that thread is not modelled.
- `get_current_username` and `rand::random` are foreign calls. The user name and the
  random number are parameters, and the panic when no user name is found is not modelled.
- D-Bus is not modelled: `PlayerFinder::new`, `find_all`, `play`, `pause` and
  `play_pause`. Their outcomes are inputs. The error detail inside `DBusError` is dropped.
- The notification stream is finite in the model. In the source it is unbounded.
- The `unsafe mem::transmute` at src/player_cmd.rs:38 is not modelled. The decode is an
  explicit exhaustive choice over the accepted range.
- Logging and `println!` output are not modelled. For the send loop only which publishes
  failed is kept.
- src/main.rs (argument parsing, default port 1883) is not part of this model.
