/**
  What pressing Enter in the input field asks for: a raw command, a channel action, a channel
  message, or nothing. Prefixes are matched case-sensitively on characters; the remainder after
  `/raw` or `/me` is trimmed of spaces and tabs only.
 */
module InputDispatch {
  import opened Options
  import opened Encoding

  /** The characters `stringByTrimmingCharactersInSet(" \t")` removes. */
  predicate IsBlank(c: char) {
    c == ' ' || c == '\t'
  }

  predicate AllBlank(s: string) {
    forall i :: 0 <= i < |s| ==> IsBlank(s[i])
  }

  /** Neither end of `s` is a space or a tab. */
  predicate Unpadded(s: string) {
    s == [] || (!IsBlank(s[0]) && !IsBlank(s[|s| - 1]))
  }

  /** How many spaces and tabs `s` starts with. */
  function LeadingBlanks(s: string): (n: nat)
    ensures n <= |s| && forall i :: 0 <= i < n ==> IsBlank(s[i])
    ensures n < |s| ==> !IsBlank(s[n])
  {
    if s != [] && IsBlank(s[0]) then 1 + LeadingBlanks(s[1..]) else 0
  }

  /** How many spaces and tabs `s` ends with. */
  function TrailingBlanks(s: string): (n: nat)
    ensures n <= |s| && forall i :: |s| - n <= i < |s| ==> IsBlank(s[i])
    ensures n < |s| ==> !IsBlank(s[|s| - n - 1])
  {
    if s != [] && IsBlank(s[|s| - 1]) then 1 + TrailingBlanks(s[..|s| - 1]) else 0
  }

  /** `s` without its leading and trailing spaces and tabs. */
  function Trim(s: string): (r: string)
    ensures Unpadded(r)
    ensures |r| <= |s|
  {
    var t := s[LeadingBlanks(s)..];
    t[..|t| - TrailingBlanks(t)]
  }

  /** Trimming removes only spaces and tabs, and only at the two ends. */
  lemma TrimSplits(s: string) returns (pre: string, post: string)
    ensures AllBlank(pre) && AllBlank(post)
    ensures s == pre + Trim(s) + post
  {
    var n := LeadingBlanks(s);
    var t := s[n..];
    var m := TrailingBlanks(t);
    var core := t[..|t| - m];
    pre, post := s[..n], t[|t| - m..];
    SplitAt(s, n);
    SplitAt(t, |t| - m);
    forall i | 0 <= i < |pre| ensures IsBlank(pre[i]) {
      assert pre[i] == s[i];
    }
    forall i | 0 <= i < |post| ensures IsBlank(post[i]) {
      assert post[i] == t[|t| - m + i];
    }
    AppendAssoc(pre, core, post);
  }

  /** A string is its prefix of length `k` followed by the rest. */
  lemma SplitAt(x: string, k: nat)
    requires k <= |x|
    ensures x == x[..k] + x[k..]
  {
  }

  lemma AppendAssoc(a: string, b: string, c: string)
    ensures a + (b + c) == a + b + c
  {
  }

  /** Conversely, `Trim` finds exactly the unpadded core of any blank-padded string. */
  lemma {:induction false} TrimUnique(pre: string, core: string, post: string)
    requires AllBlank(pre) && AllBlank(post) && Unpadded(core)
    ensures Trim(pre + core + post) == core
  {
    var s := pre + core + post;
    if core == [] {
      assert s == pre + post;
      BlankTrimsToEmpty(s);
      return;
    }
    LeadingOfPadded(pre, core + post);
    assert s == pre + (core + post);
    assert s[LeadingBlanks(s)..] == core + post;
    TrailingOfPadded(core, post);
  }

  lemma {:induction false} BlankTrimsToEmpty(s: string)
    requires AllBlank(s)
    ensures Trim(s) == []
  {
    if s != [] {
      BlankTrimsToEmpty(s[1..]);
    }
  }

  lemma {:induction false} LeadingOfPadded(pre: string, rest: string)
    requires AllBlank(pre) && (rest == [] || !IsBlank(rest[0]))
    ensures LeadingBlanks(pre + rest) == |pre|
  {
    if pre != [] {
      assert (pre + rest)[1..] == pre[1..] + rest;
      LeadingOfPadded(pre[1..], rest);
    } else {
      assert pre + rest == rest;
    }
  }

  lemma {:induction false} TrailingOfPadded(rest: string, post: string)
    requires AllBlank(post) && (rest == [] || !IsBlank(rest[|rest| - 1]))
    ensures TrailingBlanks(rest + post) == |post|
  {
    if post != [] {
      var p := post[..|post| - 1];
      assert (rest + post)[..|rest + post| - 1] == rest + p;
      TrailingOfPadded(rest, p);
    } else {
      assert rest + post == rest;
    }
  }

  /** Trimming twice is trimming once. */
  lemma TrimIdempotent(s: string)
    ensures Trim(Trim(s)) == Trim(s)
  {
    TrimUnique([], Trim(s), []);
    assert [] + Trim(s) + [] == Trim(s);
  }

  /** What one press of Enter dispatches to the connection manager. */
  datatype Request =
    | RawRequest(raw: string)
    | ActionRequest(action: string, channel: Bytes)
    | MessageRequest(message: string, channel: Bytes)

  const RawPrefix: string := "/raw"
  const ActionPrefix: string := "/me"

  /**
    The request that Enter makes of the text `input`, given whether the session reports itself
    connected and the current channel. `/raw` is tested first and needs no channel; everything else
    needs a current channel.
   */
  function Dispatch(input: string, connected: bool, current: Option<Bytes>): (r: Option<Request>)
    ensures r.Some? <==> input != "" && connected && (RawPrefix <= input || current.Some?)
    ensures r.Some? && !r.value.RawRequest? ==> current.Some? && r.value.channel == current.value
  {
    if input == "" || !connected then None
    else if RawPrefix <= input then Some(RawRequest(Trim(input[|RawPrefix|..])))
    else if current.None? then None
    else if ActionPrefix <= input then Some(ActionRequest(Trim(input[|ActionPrefix|..]), current.value))
    else Some(MessageRequest(input, current.value))
  }

  /** A `/raw` line sends its remainder, trimmed, whether or not a channel is current. */
  lemma DispatchRaw(rest: string, current: Option<Bytes>)
    ensures Dispatch(RawPrefix + rest, true, current) == Some(RawRequest(Trim(rest)))
  {
    assert (RawPrefix + rest)[|RawPrefix|..] == rest;
  }

  /** With a current channel, a `/me` line (that is not a `/raw` line) is an action on that channel. */
  lemma DispatchAction(rest: string, channel: Bytes)
    ensures Dispatch(ActionPrefix + rest, true, Some(channel)) == Some(ActionRequest(Trim(rest), channel))
  {
    assert (ActionPrefix + rest)[|ActionPrefix|..] == rest;
    assert (ActionPrefix + rest)[..3] == ActionPrefix;
    assert !(RawPrefix <= ActionPrefix + rest) by {
      assert (ActionPrefix + rest)[1] != RawPrefix[1];
    }
  }

  /** With a current channel, any other non-empty line is sent as a message, untrimmed. */
  lemma DispatchMessage(input: string, channel: Bytes)
    requires input != "" && !(RawPrefix <= input) && !(ActionPrefix <= input)
    ensures Dispatch(input, true, Some(channel)) == Some(MessageRequest(input, channel))
  {
  }

  /** `/raw WHOIS foo` sends `WHOIS foo`, with no channel needed. */
  lemma DispatchRawExample()
    ensures Dispatch("/raw WHOIS foo", true, None) == Some(RawRequest("WHOIS foo"))
  {
    var rest := " WHOIS foo";
    assert Trim(rest) == "WHOIS foo" by {
      TrimUnique(" ", "WHOIS foo", "");
      assert " " + "WHOIS foo" + "" == rest;
    }
    assert "/raw WHOIS foo" == RawPrefix + rest;
    DispatchRaw(rest, None);
  }

  /** `/me waves` on `channel` is the action `waves`. */
  lemma DispatchActionExample(channel: Bytes)
    ensures Dispatch("/me waves", true, Some(channel)) == Some(ActionRequest("waves", channel))
  {
    var rest := " waves";
    assert Trim(rest) == "waves" by {
      TrimUnique(" ", "waves", "");
      assert " " + "waves" + "" == rest;
    }
    assert "/me waves" == ActionPrefix + rest;
    DispatchAction(rest, channel);
  }

  /** `/mean` is the action `an`: the prefix test does not look for a word boundary. */
  lemma DispatchPrefixExample(channel: Bytes)
    ensures Dispatch("/mean", true, Some(channel)) == Some(ActionRequest("an", channel))
  {
    assert Trim("an") == "an" by {
      TrimUnique("", "an", "");
      assert "" + "an" + "" == "an";
    }
    assert "/mean" == ActionPrefix + "an";
    DispatchAction("an", channel);
  }

  /** `hello` is a message; `/RAW x` matches no prefix and, without a channel, sends nothing. */
  lemma DispatchOtherExamples(channel: Bytes)
    ensures Dispatch("hello", true, Some(channel)) == Some(MessageRequest("hello", channel))
    ensures Dispatch("/RAW x", true, None) == None
  {
    assert "hello"[1] != RawPrefix[1];
    assert "/RAW x"[1] != RawPrefix[1];
  }

}
