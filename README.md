# QuikMeil: the chat-line and command layer, in Dafny

QuikMeil is a small IRC client for the Mac. This project models its core.

- `QMConnectionManager` turns what the user types into one styled transcript line and one outbound IRC command. It also reacts to the events the IRC engine reports.
- The application delegate (`AppDelegate`) owns the window's state: the transcript, the connect and join buttons, the input field and the current channel. It decides what a press of Enter sends.

The modules:

- `Options`: the optional value standing for Swift's `T?`.
- `Encoding`: the byte payloads.
  - UTF-8 encoding of strings, with a validating decoder.
  - C `strlen`.
  - `NSDataFromString`: the encoded string up to its first NUL, then one 0 byte.
- `ChatLines`: a transcript line as a list of (text, style) segments. The style is `Plain`, `Bold` or `Blue`. It also holds the three line layouts the client builds:
  - the raw echo
  - a channel message, sent or received
  - a channel action
- `InputDispatch`: the pure decision made on Enter.
  - Prefixes are tested case-sensitively: `/raw` first, then `/me`.
  - A fixed number of characters is dropped.
  - The remainder is trimmed of spaces and tabs only.
  - Nothing is sent unless the input is non-empty and the session is connected.
  - Only `/raw` works without a current channel.
- `Protocol`: the commands handed to the engine, the events it delivers, and the ordered list of effects each send and each event produces. Effects are lines shown, commands issued, buttons disabled, and channels whose delegate the manager becomes.
- `Client`: the objects, updated in place.
  - The `AppDelegate` class holds the transcript, both button flags, the input field, the current channel, the session and the manager.
  - The `ConnectionManager` class builds each line segment by segment, shows it through its delegate, then issues the command. It keeps a ghost log of every effect, in order, so "shown before sent" is stated outright.
  - The `Session` class stands for the engine's session object. It keeps the session's own state that the client reads and writes: its delegate, its nickname and its `connected` flag. It also records the calls the client makes: `outbound` lists, in order, the commands issued on the session and on its channels (`sendRaw`, `message`, `action`, `join`), and `adopted` holds the channels whose delegate was set to the manager. These last two are records of calls, not fields of the engine's session.

Delivering a stream of events one `Client.ConnectionManager.Deliver` call at a time grows the manager's log by `Protocol.RunEvents` of that stream, because each call's contract appends exactly `Protocol.EventEffects` of its event. The "over any stream of events" lemmas therefore describe what the manager does over its lifetime.

Character decoding (`String(data:encoding:)`) is the parameter `decode`. The engine's `getNickFromNickUserHost` is the parameter `nickOf`. The source force-unwraps their results, so each decode it unwraps is a precondition.

Two behaviours of the code to note:

- A decode failure in `messageSent` or `joinedNewChannel` stops the program. It does not fall back to a placeholder. The model states each such decode as a precondition.
- The own-action line is `"\n\t *" + nick + " " + action`.

## Model

| member | source | states |
|---|---|---|
| `Encoding.DataFromString` | QuikMeil/QMConnectionManager.swift:23-27 | the payload ends in exactly one 0 byte and has no 0 byte before it |
| `Encoding.DataFromStringIsStrlenCopy` | QuikMeil/QMConnectionManager.swift:25-26 | the payload is the first `strlen + 1` bytes of the C string of the text |
| `Encoding.CStringPrefix` | QuikMeil/QMConnectionManager.swift:25-26 | the C string starts with the encoding of the text before its first NUL, followed by a 0 byte |
| `Encoding.StrLen` | QuikMeil/QMConnectionManager.swift:26 | `strlen` is the index of the first 0 byte: it is a 0 and no 0 comes before it |
| `Encoding.StrLenAt` | QuikMeil/QMConnectionManager.swift:26 | any index holding the first 0 byte is `strlen` |
| `Encoding.UntilNul` | QuikMeil/QMConnectionManager.swift:25-26 | the part of a string before its first NUL is a prefix without NUL, followed by a NUL or the end |
| `Encoding.CString` | QuikMeil/QMConnectionManager.swift:25 | the C string of a text ends in a 0 byte, so `strlen` is defined on it, and holds another 0 byte exactly when the text holds a NUL character |
| `Encoding.Encode` | QuikMeil/QMConnectionManager.swift:25 | UTF-8 takes one to four bytes per character, and a 0 byte appears exactly when the text has a NUL |
| `Encoding.EncodeChar` | QuikMeil/QMConnectionManager.swift:25 | one character takes one to four bytes, and only NUL encodes to a 0 byte |
| `Encoding.EncodeAppend` | QuikMeil/QMConnectionManager.swift:25 | encoding distributes over concatenation |
| `Encoding.DecodeEncode` | QuikMeil/QMConnectionManager.swift:25 | decoding the encoding of any string gives back that string |
| `Encoding.DataFromStringDecodes` | QuikMeil/QMConnectionManager.swift:23-27 | the payload without its terminator decodes to the text before its first NUL, and to the whole text when it has no NUL |
| `ChatLines.RawLine` | QuikMeil/QMConnectionManager.swift:66-69 | the raw echo starts its own line, reads `"\n\tSENT: "` followed by the command, and shows `"\tSENT: "` and the command in blue, with nothing bold |
| `ChatLines.MessageLine` | QuikMeil/QMConnectionManager.swift:88-92 | a message line starts its own line and reads `"\n" + nick + ": " + message`; the bold text is exactly `nick + ": "`, the plain text is the break and the message, and nothing is blue |
| `ChatLines.ActionLine` | QuikMeil/QMConnectionManager.swift:112-116 | an action line starts its own line and reads `"\n\t *" + nick + " " + action`; the bold text is exactly `nick + " "`, the plain text is the prefix and the action, and nothing is blue |
| `InputDispatch.LeadingBlanks` | QuikMeil/AppDelegate.swift:107 | the leading run of spaces and tabs is maximal |
| `InputDispatch.TrailingBlanks` | QuikMeil/AppDelegate.swift:107 | the trailing run of spaces and tabs is maximal |
| `InputDispatch.Trim` | QuikMeil/AppDelegate.swift:107 | the trimmed text begins and ends with neither a space nor a tab, and is no longer than the input |
| `InputDispatch.TrimSplits` | QuikMeil/AppDelegate.swift:107 | trimming removes only spaces and tabs, and only at the two ends |
| `InputDispatch.TrimUnique` | QuikMeil/AppDelegate.swift:107 | for any padding of spaces and tabs around an unpadded core, trimming yields exactly that core |
| `InputDispatch.BlankTrimsToEmpty` | QuikMeil/AppDelegate.swift:107 | a text of only spaces and tabs trims to nothing |
| `InputDispatch.TrimIdempotent` | QuikMeil/AppDelegate.swift:107 | trimming twice is the same as trimming once |
| `InputDispatch.Dispatch` | QuikMeil/AppDelegate.swift:103-123 | Enter sends something exactly when the input is non-empty, the session is connected, and the input starts with `/raw` or a channel is current; every non-raw request targets the current channel |
| `InputDispatch.DispatchRaw` | QuikMeil/AppDelegate.swift:105-107 | a `/raw` line sends its remainder, trimmed, with or without a current channel |
| `InputDispatch.DispatchAction` | QuikMeil/AppDelegate.swift:113-115 | with a current channel, a `/me` line is an action on that channel with its remainder trimmed |
| `InputDispatch.DispatchMessage` | QuikMeil/AppDelegate.swift:117-119 | with a current channel, any other non-empty line is a message sent unchanged and untrimmed |
| `InputDispatch.DispatchRawExample` | QuikMeil/AppDelegate.swift:105-107 | `/raw WHOIS foo` sends `WHOIS foo` without a channel |
| `InputDispatch.DispatchActionExample` | QuikMeil/AppDelegate.swift:113-115 | `/me waves` is the action `waves` |
| `InputDispatch.DispatchPrefixExample` | QuikMeil/AppDelegate.swift:113-115 | `/mean` is the action `an`, because the prefix test ignores word boundaries |
| `InputDispatch.DispatchOtherExamples` | QuikMeil/AppDelegate.swift:105-119 | `hello` is a message; `/RAW x` without a channel sends nothing, because the test is case-sensitive |
| `Protocol.DisplayedAppend` | QuikMeil/QMConnectionManager.swift:72 | the lines shown by two runs of effects are those of the first, then those of the second |
| `Protocol.IssuedAppend` | QuikMeil/QMConnectionManager.swift:76 | the commands issued by two runs of effects are those of the first, then those of the second |
| `Protocol.EffectsOfPair` | QuikMeil/QMConnectionManager.swift:72-76 | a display followed by an issue shows one line and issues one command |
| `Protocol.SendRawEffects` | QuikMeil/QMConnectionManager.swift:60-77 | `sendRaw` shows exactly one line, the raw echo, which starts its own line, before it issues exactly one command, the raw command carrying `NSDataFromString` of the text shown last on the line |
| `Protocol.SendMessageEffects` | QuikMeil/QMConnectionManager.swift:79-101 | `sendMessage` shows exactly one line, the user's message line, before it issues exactly one command, the message on the named channel carrying `NSDataFromString` of the message shown last on the line |
| `Protocol.SendActionEffects` | QuikMeil/QMConnectionManager.swift:103-125 | `sendAction` shows exactly one line, the user's action line, before it issues exactly one command, the action on the named channel carrying `NSDataFromString` of the action shown last on the line |
| `Protocol.EventEffects` | QuikMeil/QMConnectionManager.swift:131-253 | no event issues a command; only `messageSent` shows a line, and exactly one; only `connectionSucceeded` disables connect; only `joinedNewChannel` disables join and adopts its channel |
| `Protocol.MessageSentLine` | QuikMeil/QMConnectionManager.swift:219-243 | a received channel message shows the message line with the sender's bare nick |
| `Protocol.RunEvents` | QuikMeil/QMConnectionManager.swift:131-253 | handling any stream of events, one at a time, never issues a command |
| `Protocol.ReceivedLines` | QuikMeil/QMConnectionManager.swift:219-243 | the expected lines of a stream of events: at most one per event, each starting its own line |
| `Protocol.RunEventsDisplaysMessagesInOrder` | QuikMeil/QMConnectionManager.swift:219-243 | over any stream of events, the lines shown are exactly the channel messages, in delivery order |
| `Protocol.RunEventsDisableConnect` | QuikMeil/QMConnectionManager.swift:131-135 | over any stream of events, connect is disabled exactly when some event is a successful connection |
| `Protocol.RunEventsDisableJoin` | QuikMeil/QMConnectionManager.swift:147-153 | over any stream of events, join is disabled exactly when some event is a join |
| `Protocol.RunEventsAdopted` | QuikMeil/QMConnectionManager.swift:147-153 | over any stream of events, the manager becomes the delegate of exactly the channels joined |
| `Protocol.AdoptedAppend` | QuikMeil/QMConnectionManager.swift:151 | the channels adopted by two runs of effects are the union of the channels each adopts |
| `Protocol.JoinedChannelsCons` | QuikMeil/QMConnectionManager.swift:147-153 | the channels joined in a stream are those of its first event together with those of the rest |
| `Protocol.AllDecodableTail` | QuikMeil/QMConnectionManager.swift:222-226 | if every event of a stream decodes, so does every event of its tail |
| `Client.RequestEffects` | QuikMeil/AppDelegate.swift:105-119 | every dispatched request shows exactly one line and then issues exactly its one command, which carries the text shown last on the line |
| `Client.EnterEffects` | QuikMeil/AppDelegate.swift:103-123 | Enter shows one line and issues one command exactly when `Dispatch` yields a request, and that command is the request's; otherwise it has no effect at all |
| `Client.EnterRawEffects` | QuikMeil/AppDelegate.swift:105-109 | on a connected `/raw` line, Enter has the effects of `sendRaw` on the trimmed remainder |
| `Client.EnterActionEffects` | QuikMeil/AppDelegate.swift:113-115 | on a connected `/me` line with a channel, Enter has the effects of `sendAction` on the trimmed remainder |
| `Client.EnterMessageEffects` | QuikMeil/AppDelegate.swift:117-119 | on any other connected line with a channel, Enter has the effects of `sendMessage` on the whole line |
| `Client.AdoptedNone` | QuikMeil/QMConnectionManager.swift:131-135 | effects that set no channel delegate adopt no channel |
| `Client.Session.SetNickname` | QuikMeil/AppDelegate.swift:83 | registration stores the nickname bytes |
| `Client.Session.Send` | QuikMeil/QMConnectionManager.swift:76 | a command handed to the engine is queued after all earlier ones |
| `Client.Session.Adopt` | QuikMeil/QMConnectionManager.swift:151 | the manager becomes the delegate of the channel |
| `Client.AppDelegate.IsConnected` | QuikMeil/AppDelegate.swift:103 | `session?.connected == true`: false without a session, and the session's own flag otherwise |
| `Client.AppDelegate.OwnNick` | QuikMeil/QMConnectionManager.swift:81 | the session's nickname decoded with the session's decoder; nothing without a session |
| `Client.AppDelegate.ApplicationDidFinishLaunching` | QuikMeil/AppDelegate.swift:131-138 | a fresh manager reports to this delegate, with no session and nothing logged |
| `Client.AppDelegate.ConnectButtonPressed` | QuikMeil/AppDelegate.swift:67-88 | a fresh, unconnected session: its delegate is the manager, the manager drives it, and it registers the typed nickname as `NSDataFromString` bytes |
| `Client.AppDelegate.JoinChannelButtonPressed` | QuikMeil/AppDelegate.swift:90-97 | the typed channel becomes current at once, before any confirmation; a join is queued when there is a session |
| `Client.AppDelegate.InputFieldEnterPressed` | QuikMeil/AppDelegate.swift:99-125 | takes the branch the source's tests select; the manager's log grows by exactly the effects of Enter on the old input, the transcript by the lines and the session by the commands among them; the field is cleared exactly when a request was dispatched, which by `Client.EnterEffects` is exactly when a line is shown and a command issued |
| `Client.AppDelegate.Connected` | QuikMeil/AppDelegate.swift:149-152 | disables the connect button and nothing else |
| `Client.AppDelegate.ChannelJoined` | QuikMeil/AppDelegate.swift:154-157 | disables the join button and nothing else |
| `Client.AppDelegate.DisplayLine` | QuikMeil/AppDelegate.swift:159-167 | appends the line after everything shown before |
| `Client.ConnectionManager.SendRaw` | QuikMeil/QMConnectionManager.swift:60-77 | the log grows by the raw echo then the raw command; the transcript gets the echo line; the session gets the command carrying `NSDataFromString` of the text |
| `Client.ConnectionManager.SendMessage` | QuikMeil/QMConnectionManager.swift:79-101 | the log grows by the user's message line then the message command on the named channel; the transcript and session change to match |
| `Client.ConnectionManager.SendAction` | QuikMeil/QMConnectionManager.swift:103-125 | the log grows by the user's action line then the action command on the named channel; the transcript and session change to match |
| `Client.ConnectionManager.OnConnectionSucceeded` | QuikMeil/QMConnectionManager.swift:131-135 | only disables connect; shows and sends nothing |
| `Client.ConnectionManager.OnJoinedNewChannel` | QuikMeil/QMConnectionManager.swift:147-153 | becomes the channel's delegate, then disables join; shows and sends nothing |
| `Client.ConnectionManager.OnMessageSent` | QuikMeil/QMConnectionManager.swift:219-243 | appends exactly one message line with the sender's bare nick; sends nothing |
| `Client.ConnectionManager.Deliver` | QuikMeil/QMConnectionManager.swift:131-253 | every handler has the effects `EventEffects` gives: the other sixteen handlers change nothing at all, and no handler sends or re-enables a button |

## Left out

- Fonts are left out: the chat font, the bold conversion by `NSFontManager` and `NSColor`. They are reduced to the three styles.
- Scrolling to the end and `needsDisplay` after each display are left out. They are redraws that change no state the model keeps.
- The transcript is a sequence of lines. The source merges each line into one attributed string. The text of that string is the concatenation of the lines' texts.
- The `print` logging in every handler is left out. So is the decoding done only to log, in `nickChangedFrom` and `userQuit`. The force-unwrap of the channel-name decode at QuikMeil/QMConnectionManager.swift:149 is kept as a precondition.
- `Client.ConnectionManager.Deliver` still requires a session for `nickChangedFrom` and `userQuit`. Their log lines read `session.encoding` through an implicitly unwrapped session (QuikMeil/QMConnectionManager.swift:139, 144), which stops the program when there is no session.
- Several parts of the IRC engine are not modelled: `connect`, `run`, the server and port fields, the `connected` flag the engine sets on registration, and the session's `channels` table.
- The fixed user name and real name passed to `setNickname` are not modelled; the session keeps only the nickname.
- `Client.ConnectionManager.SendMessage` assumes the channel named by the current channel exists. The source looks it up in the engine's `channels` table and force-casts the result. That crashes when join was pressed but the server has not confirmed the join yet.
- `Client.ConnectionManager.SendAction` makes the same assumption as `SendMessage`, for the same reason.
- `Client.ConnectionManager.OnMessageSent` shows the line as soon as it is handled. The source hops to the main queue first. The model takes that as an in-order append.
- Character-set decoding is a parameter of the model. One decoder stands for both the session's encoding and each channel's encoding.
- `NSDataFromString` is modelled for the UTF-8 encoding only, which is the only one the client uses.
- Swift strings are modelled as sequences of Unicode scalar values. The model's prefix test compares scalar values and drops exactly four or three of them. In the source, `hasPrefix` compares canonically equivalent forms, and `advancedBy(4)`/`advancedBy(3)` count grapheme clusters. The two differ whenever a precomposed character or a combining mark falls at the end of the `/raw` or `/me` prefix. For example, `"/m\u{E9}ow"` (a precomposed é) is an action in the source but a message in the model. `"/me\u{301}ow"` is the action `"ow"` in the source but `"\u{301}ow"` in the model.
- The window outlets and `applicationWillTerminate` are left out. The latter has an empty body.
