/**
  What the connection manager does, as values: the commands it hands to the IRC engine, the
  inbound events the engine delivers, and for each send and each event the ordered list of
  effects (lines displayed, commands issued, UI flags cleared) that the manager produces.
 */
module Protocol {
  import opened Options
  import opened Encoding
  import opened ChatLines

  /** An outbound request to the IRC engine. */
  datatype Command =
    | RawCommand(data: Bytes)                       // session.sendRaw
    | ChannelMessage(channel: Bytes, data: Bytes)   // channel.message, on the channel keyed by name
    | ChannelAction(channel: Bytes, data: Bytes)    // channel.action, on the channel keyed by name
    | JoinChannel(channel: Bytes)                   // session.join(name, key: nil)

  /** One observable step taken by the connection manager. */
  datatype Effect =
    | Display(line: Line)           // delegate.displayLine
    | Issue(command: Command)       // a call on the session or one of its channels
    | DisableConnect                // delegate.connected()
    | DisableJoin                   // delegate.channelJoined()
    | AdoptChannel(channel: Bytes)  // channel.delegate = the manager

  /** An occurrence reported by the IRC engine, with the byte strings it carries. */
  datatype Event =
    | ConnectionSucceeded
    | NickChanged(oldNick: Bytes, newNick: Bytes, own: bool)
    | UserQuit(nick: Bytes, reason: Bytes)
    | JoinedNewChannel(channel: Bytes)
    | ModeSet(mode: Bytes, byNick: Bytes)
    | PrivateMessageReceived(message: Bytes, nick: Bytes)
    | PrivateNoticeReceived(notice: Bytes, nick: Bytes)
    | ServerMessageReceived(origin: Bytes, params: seq<Bytes>)
    | ServerNoticeReceived(origin: Bytes, params: seq<Bytes>)
    | InvitedToChannel(channel: Bytes, byNick: Bytes)
    | PrivateActionReceived(action: Bytes, nick: Bytes)
    | UserJoined(nick: Bytes, channel: Bytes)
    | UserParted(nick: Bytes, channel: Bytes, reason: Bytes, us: bool)
    | ChannelModeSet(mode: Bytes, channel: Bytes, modeParams: Bytes, byNick: Bytes)
    | TopicSet(topic: Bytes, channel: Bytes, byNick: Bytes)
    | UserKicked(nick: Bytes, channel: Bytes, reason: Bytes, byNick: Bytes, us: bool)
    | MessageSent(message: Bytes, nick: Bytes, channel: Bytes)
    | NoticeSent(notice: Bytes, nick: Bytes, channel: Bytes)
    | ActionPerformed(action: Bytes, nick: Bytes, channel: Bytes)

  /** The session's character decoding, `String(data:encoding:)`: None when the bytes do not decode. */
  type Decoder = Bytes -> Option<string>

  /** The engine's `getNickFromNickUserHost`: the nick part of a `nick!user@host` prefix. */
  type NickExtractor = Bytes -> Bytes

  /** The lines displayed by a run of effects, in order. */
  function Displayed(effects: seq<Effect>): seq<Line> {
    if effects == [] then []
    else (if effects[0].Display? then [effects[0].line] else []) + Displayed(effects[1..])
  }

  /** The commands issued by a run of effects, in order. */
  function Issued(effects: seq<Effect>): seq<Command> {
    if effects == [] then []
    else (if effects[0].Issue? then [effects[0].command] else []) + Issued(effects[1..])
  }

  /** The channels a run of effects makes the manager the delegate of. */
  function Adopted(effects: seq<Effect>): set<Bytes> {
    if effects == [] then {}
    else (if effects[0].AdoptChannel? then {effects[0].channel} else {}) + Adopted(effects[1..])
  }

  lemma {:induction false} DisplayedAppend(a: seq<Effect>, b: seq<Effect>)
    ensures Displayed(a + b) == Displayed(a) + Displayed(b)
  {
    if a == [] {
      assert a + b == b;
    } else {
      assert (a + b)[1..] == a[1..] + b;
      DisplayedAppend(a[1..], b);
    }
  }

  lemma {:induction false} IssuedAppend(a: seq<Effect>, b: seq<Effect>)
    ensures Issued(a + b) == Issued(a) + Issued(b)
  {
    if a == [] {
      assert a + b == b;
    } else {
      assert (a + b)[0] == a[0];
      assert (a + b)[1..] == a[1..] + b;
      IssuedAppend(a[1..], b);
      var head := if a[0].Issue? then [a[0].command] else [];
      assert Issued(a + b) == head + (Issued(a[1..]) + Issued(b));
      assert Issued(a) == head + Issued(a[1..]);
    }
  }

  /** The effects of a pair: one display, then one command. */
  lemma EffectsOfPair(line: Line, command: Command)
    ensures Displayed([Display(line), Issue(command)]) == [line]
    ensures Issued([Display(line), Issue(command)]) == [command]
  {
    var effects := [Display(line), Issue(command)];
    var tail := effects[1..];
    assert tail[0] == Issue(command) && tail[1..] == [];
    assert Issued(tail[1..]) == [] && Displayed(tail[1..]) == [];
    assert Issued(tail) == [command] + [];
    assert Displayed(tail) == [];
    assert effects[0] == Display(line);
  }

  /** The payload a command carries to the wire. */
  function Payload(command: Command): Bytes {
    match command
    case RawCommand(data) => data
    case ChannelMessage(_, data) => data
    case ChannelAction(_, data) => data
    case JoinChannel(channel) => channel
  }

  /**
    Optimistic echo: exactly one line is displayed, before exactly one command is issued, and the
    command carries `NSDataFromString` of the text shown as the line's last segment.
   */
  predicate EchoThenSend(effects: seq<Effect>, text: string) {
    |effects| == 2 && effects[0].Display? && effects[1].Issue?
    && StartsOwnLine(effects[0].line)
    && effects[0].line[|effects[0].line| - 1].text == text
    && Payload(effects[1].command) == DataFromString(text)
  }

  /**
    `sendRaw`: the blue `SENT:` line, then the raw bytes. Like every send, it echoes locally first
    and then sends what it echoed.
   */
  function SendRawEffects(raw: string): (effects: seq<Effect>)
    ensures EchoThenSend(effects, raw)
    ensures Displayed(effects) == [RawLine(raw)]
    ensures Issued(effects) == [RawCommand(DataFromString(raw))]
  {
    EffectsOfPair(RawLine(raw), RawCommand(DataFromString(raw)));
    [Display(RawLine(raw)), Issue(RawCommand(DataFromString(raw)))]
  }

  /** `sendMessage`: the sender's own message line, then the message on the named channel. */
  function SendMessageEffects(nick: string, message: string, channel: Bytes): (effects: seq<Effect>)
    ensures EchoThenSend(effects, message)
    ensures Displayed(effects) == [MessageLine(nick, message)]
    ensures Issued(effects) == [ChannelMessage(channel, DataFromString(message))]
  {
    EffectsOfPair(MessageLine(nick, message), ChannelMessage(channel, DataFromString(message)));
    [Display(MessageLine(nick, message)), Issue(ChannelMessage(channel, DataFromString(message)))]
  }

  /** `sendAction`: the sender's own action line, then the action on the named channel. */
  function SendActionEffects(nick: string, action: string, channel: Bytes): (effects: seq<Effect>)
    ensures EchoThenSend(effects, action)
    ensures Displayed(effects) == [ActionLine(nick, action)]
    ensures Issued(effects) == [ChannelAction(channel, DataFromString(action))]
  {
    EffectsOfPair(ActionLine(nick, action), ChannelAction(channel, DataFromString(action)));
    [Display(ActionLine(nick, action)), Issue(ChannelAction(channel, DataFromString(action)))]
  }

  /** Handlers that read `session.encoding` and so need the manager to hold a session. */
  predicate NeedsSession(e: Event) {
    e.NickChanged? || e.UserQuit? || e.JoinedNewChannel?
  }

  /** The decodings a handler force-unwraps; each must succeed. */
  predicate Decodable(e: Event, decode: Decoder, nickOf: NickExtractor) {
    match e
    case JoinedNewChannel(channel) => decode(channel).Some?
    case MessageSent(message, nick, _) =>
      decode(message).Some? && decode(nick).Some? && decode(nickOf(nick)).Some?
    case _ => true
  }

  /**
    The effects of one inbound event. Only a channel message is rendered; connection and join
    clear their buttons; every other kind is dropped.
   */
  function EventEffects(e: Event, decode: Decoder, nickOf: NickExtractor): (effects: seq<Effect>)
    requires Decodable(e, decode, nickOf)
    ensures Issued(effects) == []
    ensures |Displayed(effects)| == (if e.MessageSent? then 1 else 0)
    ensures (DisableConnect in effects) == e.ConnectionSucceeded?
    ensures (DisableJoin in effects) == e.JoinedNewChannel?
    ensures Adopted(effects) == (if e.JoinedNewChannel? then {e.channel} else {})
  {
    match e
    case ConnectionSucceeded => [DisableConnect]
    case JoinedNewChannel(channel) =>
      var effects := [AdoptChannel(channel), DisableJoin];
      assert effects[1..][1..] == [];
      assert effects[0] == AdoptChannel(channel) && effects[1..][0] == DisableJoin;
      assert Issued(effects[1..]) == [] && Displayed(effects[1..]) == [];
      assert Adopted(effects[1..]) == {};
      effects
    case MessageSent(message, nick, _) =>
      var effects := [Display(MessageLine(decode(nickOf(nick)).value, decode(message).value))];
      assert effects[1..] == [];
      effects
    case _ => []
  }

  /** A received channel message is shown exactly as a sent one would be, with the sender's bare nick. */
  lemma MessageSentLine(message: Bytes, nick: Bytes, channel: Bytes, decode: Decoder, nickOf: NickExtractor)
    requires Decodable(MessageSent(message, nick, channel), decode, nickOf)
    ensures Displayed(EventEffects(MessageSent(message, nick, channel), decode, nickOf))
            == [MessageLine(decode(nickOf(nick)).value, decode(message).value)]
  {
    var line := MessageLine(decode(nickOf(nick)).value, decode(message).value);
    assert [Display(line)][1..] == [];
  }

  predicate AllDecodable(events: seq<Event>, decode: Decoder, nickOf: NickExtractor) {
    forall i :: 0 <= i < |events| ==> Decodable(events[i], decode, nickOf)
  }

  /** The effects of a stream of events handled one at a time, in delivery order; none of them sends. */
  function RunEvents(events: seq<Event>, decode: Decoder, nickOf: NickExtractor): (effects: seq<Effect>)
    requires AllDecodable(events, decode, nickOf)
    ensures Issued(effects) == []
  {
    if events == [] then []
    else
      AllDecodableTail(events, decode, nickOf);
      var first := EventEffects(events[0], decode, nickOf);
      var rest := RunEvents(events[1..], decode, nickOf);
      IssuedAppend(first, rest);
      first + rest
  }

  /** The transcript lines a stream of events should produce: one per channel message, in order. */
  function ReceivedLines(events: seq<Event>, decode: Decoder, nickOf: NickExtractor): (lines: seq<Line>)
    requires AllDecodable(events, decode, nickOf)
    ensures |lines| <= |events|
    ensures forall k :: 0 <= k < |lines| ==> StartsOwnLine(lines[k])
  {
    if events == [] then []
    else if events[0].MessageSent? then
      [MessageLine(decode(nickOf(events[0].nick)).value, decode(events[0].message).value)]
      + ReceivedLines(events[1..], decode, nickOf)
    else ReceivedLines(events[1..], decode, nickOf)
  }

  /** Handling events one by one displays exactly the channel messages among them, in delivery order. */
  lemma {:induction false} RunEventsDisplaysMessagesInOrder(events: seq<Event>, decode: Decoder, nickOf: NickExtractor)
    requires AllDecodable(events, decode, nickOf)
    ensures Displayed(RunEvents(events, decode, nickOf)) == ReceivedLines(events, decode, nickOf)
  {
    if events != [] {
      var e := events[0];
      AllDecodableTail(events, decode, nickOf);
      RunEventsDisplaysMessagesInOrder(events[1..], decode, nickOf);
      DisplayedAppend(EventEffects(e, decode, nickOf), RunEvents(events[1..], decode, nickOf));
      if e.MessageSent? {
        MessageSentLine(e.message, e.nick, e.channel, decode, nickOf);
      } else {
        assert Displayed(EventEffects(e, decode, nickOf)) == [];
      }
    }
  }


  lemma {:induction false} AdoptedAppend(a: seq<Effect>, b: seq<Effect>)
    ensures Adopted(a + b) == Adopted(a) + Adopted(b)
  {
    if a == [] {
      assert a + b == b;
    } else {
      assert (a + b)[0] == a[0];
      assert (a + b)[1..] == a[1..] + b;
      AdoptedAppend(a[1..], b);
    }
  }

  /** The channels joined in a stream of events, in any order. */
  function JoinedChannels(events: seq<Event>): set<Bytes> {
    set i | 0 <= i < |events| && events[i].JoinedNewChannel? :: events[i].channel
  }

  lemma AllDecodableTail(events: seq<Event>, decode: Decoder, nickOf: NickExtractor)
    requires events != [] && AllDecodable(events, decode, nickOf)
    ensures Decodable(events[0], decode, nickOf) && AllDecodable(events[1..], decode, nickOf)
  {
    forall i | 0 <= i < |events[1..]| ensures Decodable(events[1..][i], decode, nickOf) {
      assert events[1..][i] == events[i + 1];
    }
  }

  /**
    Over any stream of events, the connect button is disabled exactly when some event was a
    successful connection; nothing enables it again.
   */
  lemma {:induction false} RunEventsDisableConnect(events: seq<Event>, decode: Decoder, nickOf: NickExtractor)
    requires AllDecodable(events, decode, nickOf)
    ensures (DisableConnect in RunEvents(events, decode, nickOf))
            <==> exists i :: 0 <= i < |events| && events[i].ConnectionSucceeded?
  {
    if events != [] {
      var rest := events[1..];
      AllDecodableTail(events, decode, nickOf);
      RunEventsDisableConnect(rest, decode, nickOf);
      assert (exists i :: 0 <= i < |events| && events[i].ConnectionSucceeded?)
             <==> events[0].ConnectionSucceeded? || exists i :: 0 <= i < |rest| && rest[i].ConnectionSucceeded? by {
        forall i | 0 < i < |events| ensures events[i] == rest[i - 1] { }
      }
    }
  }

  /**
    Over any stream of events, the join button is disabled exactly when some event was a join;
    nothing enables it again.
   */
  lemma {:induction false} RunEventsDisableJoin(events: seq<Event>, decode: Decoder, nickOf: NickExtractor)
    requires AllDecodable(events, decode, nickOf)
    ensures (DisableJoin in RunEvents(events, decode, nickOf))
            <==> exists i :: 0 <= i < |events| && events[i].JoinedNewChannel?
  {
    if events != [] {
      var rest := events[1..];
      AllDecodableTail(events, decode, nickOf);
      RunEventsDisableJoin(rest, decode, nickOf);
      assert (exists i :: 0 <= i < |events| && events[i].JoinedNewChannel?)
             <==> events[0].JoinedNewChannel? || exists i :: 0 <= i < |rest| && rest[i].JoinedNewChannel? by {
        forall i | 0 < i < |events| ensures events[i] == rest[i - 1] { }
      }
    }
  }

  lemma JoinedChannelsCons(events: seq<Event>)
    requires events != []
    ensures JoinedChannels(events)
            == (if events[0].JoinedNewChannel? then {events[0].channel} else {}) + JoinedChannels(events[1..])
  {
    var e, rest := events[0], events[1..];
    forall c | c in JoinedChannels(events)
      ensures c in (if e.JoinedNewChannel? then {e.channel} else {}) + JoinedChannels(rest)
    {
      var i :| 0 <= i < |events| && events[i].JoinedNewChannel? && events[i].channel == c;
      if i > 0 {
        assert rest[i - 1] == events[i];
      }
    }
    forall c | c in JoinedChannels(rest) ensures c in JoinedChannels(events) {
      var i :| 0 <= i < |rest| && rest[i].JoinedNewChannel? && rest[i].channel == c;
      assert events[i + 1] == rest[i];
    }
  }

  /** Over any stream of events, the manager becomes the delegate of exactly the channels joined. */
  lemma {:induction false} RunEventsAdopted(events: seq<Event>, decode: Decoder, nickOf: NickExtractor)
    requires AllDecodable(events, decode, nickOf)
    ensures Adopted(RunEvents(events, decode, nickOf)) == JoinedChannels(events)
  {
    if events != [] {
      var rest := events[1..];
      AllDecodableTail(events, decode, nickOf);
      RunEventsAdopted(rest, decode, nickOf);
      AdoptedAppend(EventEffects(events[0], decode, nickOf), RunEvents(rest, decode, nickOf));
      JoinedChannelsCons(events);
    }
  }

}
