/**
  The running client: the application delegate that owns the window's state, the connection
  manager that formats and sends lines, and the IRC session as far as the client sees it.
  Every object is updated in place, as in the application; the manager also keeps a ghost log of
  the effects it has produced, in order, so that "display before send" can be stated.
 */
module Client {
  import opened Options
  import opened Encoding
  import opened ChatLines
  import opened Protocol
  import opened InputDispatch

  /**
    The IRC session object of the engine, reduced to what the client reads and writes: its
    delegate, the nickname it registers with, the `connected` flag the engine maintains, the commands
    handed to it, and the channels whose delegate has been set to the manager.
   */
  class Session {
    var delegate: ConnectionManager?
    var nickname: Bytes
    var connected: bool
    var outbound: seq<Command>
    var adopted: set<Bytes>

    constructor ()
      ensures delegate == null && nickname == []
      ensures !connected && outbound == [] && adopted == {}
    {
      delegate := null;
      nickname := [];
      connected := false;
      outbound := [];
      adopted := {};
    }

    /** `setNickname(_:username:realname:)`, as far as the nickname goes. */
    method SetNickname(nick: Bytes)
      modifies this`nickname
      ensures nickname == nick
    {
      nickname := nick;
    }

    /** Hands one command to the engine: it is queued after every earlier one. */
    method Send(command: Command)
      modifies this`outbound
      ensures outbound == old(outbound) + [command]
    {
      outbound := outbound + [command];
    }

    /** `channel.delegate = manager` on the joined channel named `channel`. */
    method Adopt(channel: Bytes)
      modifies this`adopted
      ensures adopted == old(adopted) + {channel}
    {
      adopted := adopted + {channel};
    }
  }

  /** The command a request issues. */
  function RequestCommand(request: Request): Command {
    match request
    case RawRequest(raw) => RawCommand(DataFromString(raw))
    case ActionRequest(action, channel) => ChannelAction(channel, DataFromString(action))
    case MessageRequest(message, channel) => ChannelMessage(channel, DataFromString(message))
  }

  /** The text a request shows as its last segment and sends. */
  function RequestText(request: Request): string {
    match request
    case RawRequest(raw) => raw
    case ActionRequest(action, _) => action
    case MessageRequest(message, _) => message
  }

  /**
    The effects of one dispatched request; the nick is the session's, decoded. Every request echoes
    its text and then issues exactly its one command, which carries that text.
   */
  function RequestEffects(request: Request, nick: Option<string>): (effects: seq<Effect>)
    requires request.RawRequest? || nick.Some?
    ensures EchoThenSend(effects, RequestText(request))
    ensures Issued(effects) == [RequestCommand(request)]
    ensures |Displayed(effects)| == 1
  {
    match request
    case RawRequest(raw) => SendRawEffects(raw)
    case ActionRequest(action, channel) => SendActionEffects(nick.value, action, channel)
    case MessageRequest(message, channel) => SendMessageEffects(nick.value, message, channel)
  }

  /** Whether a press of Enter on `input` needs the session's nick decoded (it sends a message or an action). */
  predicate NeedsNick(input: string, connected: bool, current: Option<Bytes>) {
    var r := Dispatch(input, connected, current);
    r.Some? && !r.value.RawRequest?
  }

  /**
    The effects of one press of Enter: one line displayed and one command issued exactly when a
    request is dispatched, and no effect at all otherwise.
   */
  function EnterEffects(input: string, connected: bool, current: Option<Bytes>, nick: Option<string>): (effects: seq<Effect>)
    requires NeedsNick(input, connected, current) ==> nick.Some?
    ensures var r := Dispatch(input, connected, current);
            |Issued(effects)| == |Displayed(effects)| == (if r.Some? then 1 else 0)
            && (r.None? <==> effects == [])
            && (r.Some? ==> Issued(effects) == [RequestCommand(r.value)])
  {
    match Dispatch(input, connected, current)
    case None => []
    case Some(request) => RequestEffects(request, nick)
  }

  /** The effects of Enter on a connected `/raw` line: echo and send its trimmed remainder. */
  lemma EnterRawEffects(input: string, current: Option<Bytes>, nick: Option<string>)
    requires RawPrefix <= input
    ensures EnterEffects(input, true, current, nick) == SendRawEffects(Trim(input[|RawPrefix|..]))
  {
  }

  /** The effects of Enter on a connected `/me` line with a current channel. */
  lemma EnterActionEffects(input: string, channel: Bytes, nick: string)
    requires !(RawPrefix <= input) && ActionPrefix <= input
    ensures EnterEffects(input, true, Some(channel), Some(nick))
            == SendActionEffects(nick, Trim(input[|ActionPrefix|..]), channel)
  {
  }

  /** The effects of Enter on any other connected, non-empty line with a current channel. */
  lemma EnterMessageEffects(input: string, channel: Bytes, nick: string)
    requires input != "" && !(RawPrefix <= input) && !(ActionPrefix <= input)
    ensures EnterEffects(input, true, Some(channel), Some(nick)) == SendMessageEffects(nick, input, channel)
  {
  }

  /**
    The application delegate: the transcript shown in the chat view, the enabled state of the
    connect and join buttons, the input field, the current channel, the session and the manager.
   */
  class AppDelegate {
    var transcript: seq<Line>
    var connectEnabled: bool
    var joinEnabled: bool
    var input: string
    var currentChannel: Option<Bytes>
    var session: Session?
    var manager: ConnectionManager?

    /** The manager reports to this delegate and drives the same session. */
    ghost predicate Valid()
      reads this`manager, this`session, {manager}`session
    {
      manager != null && manager.delegate == this && manager.session == session
    }

    /** The state the window starts in: empty transcript, both buttons enabled, no session. */
    constructor ()
      ensures transcript == [] && connectEnabled && joinEnabled && input == ""
      ensures currentChannel == None && session == null && manager == null
    {
      transcript := [];
      connectEnabled, joinEnabled := true, true;
      input := "";
      currentChannel := None;
      session := null;
      manager := null;
    }

    /** `session?.connected == true`: false without a session, the session's flag otherwise. */
    function IsConnected(): (r: bool)
      reads this`session, {session}`connected
      ensures session == null ==> !r
      ensures session != null ==> r == session.connected
    {
      session != null && session.connected
    }

    /** The session's nickname as text, when there is a session and the nickname decodes. */
    function OwnNick(decode: Decoder): (r: Option<string>)
      reads this`session, {session}`nickname
      ensures session == null ==> r.None?
      ensures session != null ==> r == decode(session.nickname)
    {
      if session == null then None else decode(session.nickname)
    }

    /** `applicationDidFinishLaunching`: a fresh manager whose delegate is this object. */
    method ApplicationDidFinishLaunching()
      modifies this`manager
      ensures fresh(manager) && manager.delegate == this && manager.session == null
      ensures manager.log == []
      ensures session == null ==> Valid()
    {
      manager := new ConnectionManager(this);
    }

    /**
      `connectButtonPressed`: a fresh session, registered with the nickname typed in the field,
      whose delegate is the manager, which now drives it.
     */
    method ConnectButtonPressed(nickField: string)
      requires manager != null
      modifies this`session, manager`session
      ensures fresh(session) && session.delegate == manager && manager.session == session
      ensures session.nickname == DataFromString(nickField)
      ensures !session.connected && session.outbound == [] && session.adopted == {}
    {
      session := new Session();
      session.delegate := manager;
      manager.session := session;
      var nickname := DataFromString(nickField);
      session.SetNickname(nickname);
    }

    /**
      `joinChannelButtonPressed`: the typed channel becomes current at once, before any join is
      confirmed, and a join is requested when there is a session.
     */
    method JoinChannelButtonPressed(channelField: string)
      modifies this`currentChannel, {session}`outbound
      ensures currentChannel == Some(DataFromString(channelField))
      ensures session != null ==> session.outbound == old(session.outbound) + [JoinChannel(DataFromString(channelField))]
    {
      var channelName := DataFromString(channelField);
      currentChannel := Some(channelName);
      if session != null {
        session.Send(JoinChannel(channelName));
      }
    }

    /**
      `inputFieldEnterPressed`: takes the branch that the source's tests select (`Dispatch` states
      them), echoes and sends through the manager, and clears the field exactly when something was
      sent.
     */
    method InputFieldEnterPressed(decode: Decoder)
      requires Valid()
      requires NeedsNick(input, IsConnected(), currentChannel) ==> OwnNick(decode).Some?
      modifies this`input, this`transcript, manager`log, {session}`outbound
      ensures Valid()
      ensures var r := Dispatch(old(input), old(IsConnected()), old(currentChannel));
              input == (if r.Some? then "" else old(input))
      ensures var effects := EnterEffects(old(input), old(IsConnected()), old(currentChannel), old(OwnNick(decode)));
              manager.log == old(manager.log) + effects
              && transcript == old(transcript) + Displayed(effects)
              && (session != null ==> session.outbound == old(session.outbound) + Issued(effects))
    {
      var request := Dispatch(input, session != null && session.connected, currentChannel);
      match request
      case None =>
      case Some(RawRequest(raw)) =>
        manager.SendRaw(raw);
        input := "";
      case Some(ActionRequest(action, channelName)) =>
        manager.SendAction(action, channelName, decode);
        input := "";
      case Some(MessageRequest(message, channelName)) =>
        manager.SendMessage(message, channelName, decode);
        input := "";
    }

    /** `connected()`: only disables the connect button. */
    method Connected()
      modifies this`connectEnabled
      ensures !connectEnabled
    {
      connectEnabled := false;
    }

    /** `channelJoined()`: only disables the join button. */
    method ChannelJoined()
      modifies this`joinEnabled
      ensures !joinEnabled
    {
      joinEnabled := false;
    }

    /** `displayLine`: appends the line after everything shown before. */
    method DisplayLine(line: Line)
      modifies this`transcript
      ensures transcript == old(transcript) + [line]
    {
      transcript := transcript + [line];
    }
  }

  /**
    The connection manager: the delegate of the session and of every joined channel. It builds each
    chat line segment by segment, shows it through its delegate, and issues commands on the session.
   */
  class ConnectionManager {
    const delegate: AppDelegate
    var session: Session?
    /** Every effect produced so far, in the order produced. */
    ghost var log: seq<Effect>

    /** A manager reporting to `delegate`, which the source assigns right after creating it. */
    constructor (delegate: AppDelegate)
      ensures this.delegate == delegate && session == null && log == []
    {
      this.delegate := delegate;
      session := null;
      log := [];
    }

    /** `sendRaw`: shows the blue `SENT:` line, then sends the raw bytes. */
    method SendRaw(rawString: string)
      requires session != null
      modifies this`log, delegate`transcript, session`outbound
      ensures var effects := SendRawEffects(rawString);
              log == old(log) + effects
              && delegate.transcript == old(delegate.transcript) + Displayed(effects)
              && session.outbound == old(session.outbound) + Issued(effects)
    {
      var newChatLine: Line := [];
      newChatLine := newChatLine + [Segment("\n", Plain)];
      newChatLine := newChatLine + [Segment("\tSENT: ", Blue)];
      newChatLine := newChatLine + [Segment(rawString, Blue)];
      assert newChatLine == RawLine(rawString);
      delegate.DisplayLine(newChatLine);
      log := log + [Display(newChatLine)];
      var raw := DataFromString(rawString);
      session.Send(RawCommand(raw));
      log := log + [Issue(RawCommand(raw))];
      AppendPair(old(log), Display(newChatLine), Issue(RawCommand(raw)));
    }

    /** `sendMessage`: shows the user's own message line, then sends the message to the channel. */
    method SendMessage(messageString: string, channelName: Bytes, decode: Decoder)
      requires session != null
      requires decode(session.nickname).Some?
      modifies this`log, delegate`transcript, session`outbound
      ensures var effects := SendMessageEffects(old(decode(session.nickname).value), messageString, channelName);
              log == old(log) + effects
              && delegate.transcript == old(delegate.transcript) + Displayed(effects)
              && session.outbound == old(session.outbound) + Issued(effects)
    {
      var nickString := decode(session.nickname).value;
      var newChatLine: Line := [];
      newChatLine := newChatLine + [Segment("\n", Plain)];
      newChatLine := newChatLine + [Segment(nickString, Bold)];
      newChatLine := newChatLine + [Segment(": ", Bold)];
      newChatLine := newChatLine + [Segment(messageString, Plain)];
      assert newChatLine == MessageLine(nickString, messageString);
      delegate.DisplayLine(newChatLine);
      log := log + [Display(newChatLine)];
      var message := DataFromString(messageString);
      session.Send(ChannelMessage(channelName, message));
      log := log + [Issue(ChannelMessage(channelName, message))];
      AppendPair(old(log), Display(newChatLine), Issue(ChannelMessage(channelName, message)));
    }

    /** `sendAction`: shows the user's own action line, then sends the action to the channel. */
    method SendAction(actionString: string, channelName: Bytes, decode: Decoder)
      requires session != null
      requires decode(session.nickname).Some?
      modifies this`log, delegate`transcript, session`outbound
      ensures var effects := SendActionEffects(old(decode(session.nickname).value), actionString, channelName);
              log == old(log) + effects
              && delegate.transcript == old(delegate.transcript) + Displayed(effects)
              && session.outbound == old(session.outbound) + Issued(effects)
    {
      var nickString := decode(session.nickname).value;
      var newChatLine: Line := [];
      newChatLine := newChatLine + [Segment("\n\t *", Plain)];
      newChatLine := newChatLine + [Segment(nickString, Bold)];
      newChatLine := newChatLine + [Segment(" ", Bold)];
      newChatLine := newChatLine + [Segment(actionString, Plain)];
      assert newChatLine == ActionLine(nickString, actionString);
      delegate.DisplayLine(newChatLine);
      log := log + [Display(newChatLine)];
      var action := DataFromString(actionString);
      session.Send(ChannelAction(channelName, action));
      log := log + [Issue(ChannelAction(channelName, action))];
      AppendPair(old(log), Display(newChatLine), Issue(ChannelAction(channelName, action)));
    }

    /** `connectionSucceeded`: tells the delegate, which disables its connect button. */
    method OnConnectionSucceeded()
      modifies this`log, delegate`connectEnabled
      ensures log == old(log) + [DisableConnect]
      ensures !delegate.connectEnabled
    {
      delegate.Connected();
      log := log + [DisableConnect];
    }

    /** `joinedNewChannel`: becomes the channel's delegate, then the delegate disables its join button. */
    method OnJoinedNewChannel(channel: Bytes, decode: Decoder)
      requires session != null
      requires decode(channel).Some?
      modifies this`log, session`adopted, delegate`joinEnabled
      ensures log == old(log) + [AdoptChannel(channel), DisableJoin]
      ensures session.adopted == old(session.adopted) + {channel}
      ensures !delegate.joinEnabled
    {
      session.Adopt(channel);
      log := log + [AdoptChannel(channel)];
      delegate.ChannelJoined();
      log := log + [DisableJoin];
    }

    /**
      `messageSent` on a joined channel: shows the message line with the sender's bare nick; the
      main-queue hop is taken as an in-order append.
     */
    method OnMessageSent(message: Bytes, nick: Bytes, channel: Bytes, decode: Decoder, nickOf: NickExtractor)
      requires Decodable(MessageSent(message, nick, channel), decode, nickOf)
      modifies this`log, delegate`transcript
      ensures var line := MessageLine(decode(nickOf(nick)).value, decode(message).value);
              log == old(log) + [Display(line)] && delegate.transcript == old(delegate.transcript) + [line]
    {
      var messageString := decode(message).value;
      var nickOnlyString := decode(nickOf(nick)).value;
      var newChatLine: Line := [];
      newChatLine := newChatLine + [Segment("\n", Plain)];
      newChatLine := newChatLine + [Segment(nickOnlyString, Bold)];
      newChatLine := newChatLine + [Segment(": ", Bold)];
      newChatLine := newChatLine + [Segment(messageString, Plain)];
      assert newChatLine == MessageLine(nickOnlyString, messageString);
      delegate.DisplayLine(newChatLine);
      log := log + [Display(newChatLine)];
    }

    /**
      The engine delivering one event to the manager's handler for it. Only a channel message is
      shown, only connection and join clear a button, and nothing is ever sent.
     */
    method Deliver(e: Event, decode: Decoder, nickOf: NickExtractor)
      requires NeedsSession(e) ==> session != null
      requires Decodable(e, decode, nickOf)
      modifies this`log, delegate`transcript, delegate`connectEnabled, delegate`joinEnabled, {session}`adopted
      ensures var effects := EventEffects(e, decode, nickOf);
              log == old(log) + effects
              && delegate.transcript == old(delegate.transcript) + Displayed(effects)
              && delegate.connectEnabled == (old(delegate.connectEnabled) && DisableConnect !in effects)
              && delegate.joinEnabled == (old(delegate.joinEnabled) && DisableJoin !in effects)
              && (session != null ==> session.adopted == old(session.adopted) + Adopted(effects))
    {
      var effects := EventEffects(e, decode, nickOf);
      match e
      case ConnectionSucceeded =>
        OnConnectionSucceeded();
        AdoptedNone([DisableConnect]);
      case JoinedNewChannel(channel) =>
        OnJoinedNewChannel(channel, decode);
      case MessageSent(message, nick, channel) =>
        OnMessageSent(message, nick, channel, decode, nickOf);
        MessageSentLine(message, nick, channel, decode, nickOf);
        AdoptedNone(effects);
      case _ =>
        // nickChanged, userQuit, modeSet, the private and server messages and notices,
        // invitedToChannel, the private action and every channel handler but messageSent
        assert effects == [];
    }
  }

  /** Appending two effects one after the other appends the pair. */
  lemma AppendPair(log: seq<Effect>, first: Effect, second: Effect)
    ensures log + [first] + [second] == log + [first, second]
  {
  }

  /** A run of effects with no adoption in it adopts nothing. */
  lemma {:induction false} AdoptedNone(effects: seq<Effect>)
    requires forall i :: 0 <= i < |effects| ==> !effects[i].AdoptChannel?
    ensures Adopted(effects) == {}
  {
    if effects != [] {
      AdoptedNone(effects[1..]);
    }
  }

}
