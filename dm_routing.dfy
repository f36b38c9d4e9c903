/**
 * The direct-message routing of src/index.js: which incoming Slack messages reach the
 * baseline or check-in handler. Absent message fields are the empty text; the answer
 * of the `conversations.info` lookup is an input.
 */
module DmRouting {
  import opened Text

  datatype Message = Message(subtype: string, botId: string, channelType: string, channel: string, text: string)

  /** What `conversations.info` says about the channel, or that the call failed. */
  datatype ChannelLookup = IsIm | NotIm | LookupFailed

  /** The handler a message reaches: at most one. */
  datatype Route = Ignore | ToBaseline | ToCheckin

  /** Bot messages and messages with a subtype are never commands. */
  predicate FromPerson(m: Message)
  {
    m.subtype == [] && m.botId == []
  }

  /** The lookup is consulted only when neither the channel type nor the `D` prefix settle it. */
  predicate NeedsLookup(m: Message)
  {
    m.channelType != "im" && m.channel != [] && !StartsWith(m.channel, "D")
  }

  /** The DM detection: `channel_type` is `im`, else the channel id starts with `D`, else the lookup says `is_im`. */
  predicate IsDirect(m: Message, lookup: ChannelLookup)
  {
    m.channelType == "im"
    || (m.channel != [] && StartsWith(m.channel, "D"))
    || (NeedsLookup(m) && lookup == IsIm)
  }

  /** The text the prefix test sees: lowercased, then trimmed. */
  function CommandText(m: Message): string
  {
    Trim(ToLower(m.text))
  }

  /** The handler a message is dispatched to. */
  function RouteOf(m: Message, lookup: ChannelLookup): (r: Route)
    ensures !FromPerson(m) ==> r == Ignore
    ensures r == ToBaseline <==> FromPerson(m) && IsDirect(m, lookup) && StartsWith(CommandText(m), "baseline")
    ensures r == ToCheckin <==>
      FromPerson(m) && IsDirect(m, lookup) && !StartsWith(CommandText(m), "baseline") && StartsWith(CommandText(m), "checkin")
  {
    if m.subtype != [] || m.botId != [] then Ignore
    else
      var isDM :=
        if m.channelType == "im" then true
        else if m.channel != [] && StartsWith(m.channel, "D") then true
        else if m.channel != [] then lookup == IsIm
        else false;
      Dispatch(isDM, CommandText(m))
  }

  /** The prefix tests on the command text of a message from a person: `baseline` first, then `checkin`. */
  function Dispatch(isDM: bool, text: string): Route
  {
    if !isDM then Ignore
    else if StartsWith(text, "baseline") then ToBaseline
    else if StartsWith(text, "checkin") then ToCheckin
    else Ignore
  }

  /** A failed lookup routes exactly like a negative one: the message is dropped unless already known to be a DM. */
  lemma LookupOnlyWhenNeeded(m: Message, l1: ChannelLookup, l2: ChannelLookup)
    ensures !NeedsLookup(m) ==> RouteOf(m, l1) == RouteOf(m, l2)
    ensures RouteOf(m, LookupFailed) == RouteOf(m, NotIm)
    ensures NeedsLookup(m) && l1 != IsIm ==> RouteOf(m, l1) == Ignore
  {
  }

  /** Surrounding white space does not change the route. */
  lemma {:induction false} RoutingIgnoresPadding(m: Message, lookup: ChannelLookup, p: string, q: string)
    requires AllWhitespace(p) && AllWhitespace(q)
    ensures RouteOf(m.(text := p + m.text + q), lookup) == RouteOf(m, lookup)
  {
    var m' := m.(text := p + m.text + q);
    PaddedCommandText(p, m.text, q);
    RouteIsDispatch(m', lookup);
    RouteIsDispatch(m, lookup);
    TextIsNotRouting(m, p + m.text + q, lookup);
  }

  /** Who sent a message and where are independent of its text. */
  lemma TextIsNotRouting(m: Message, t: string, lookup: ChannelLookup)
    ensures FromPerson(m.(text := t)) == FromPerson(m)
    ensures IsDirect(m.(text := t), lookup) == IsDirect(m, lookup)
  {
  }

  /** A message from a person is dispatched on the DM test and its command text alone. */
  lemma RouteIsDispatch(m: Message, lookup: ChannelLookup)
    ensures RouteOf(m, lookup) == if FromPerson(m) then Dispatch(IsDirect(m, lookup), CommandText(m)) else Ignore
  {
  }

  lemma PaddedCommandText(p: string, t: string, q: string)
    requires AllWhitespace(p) && AllWhitespace(q)
    ensures Trim(ToLower(p + t + q)) == Trim(ToLower(t))
  {
    ToLowerConcat(p, t);
    ToLowerConcat(p + t, q);
    ToLowerWhitespace(p);
    ToLowerWhitespace(q);
    TrimAbsorbsPadding(p, ToLower(t), q);
  }

  /** Letter case does not change the route: a lowercased text goes where the original goes. */
  lemma RoutingIgnoresCase(m: Message, lookup: ChannelLookup)
    ensures RouteOf(m.(text := ToLower(m.text)), lookup) == RouteOf(m, lookup)
  {
    ToLowerIdempotent(m.text);
  }

  lemma ToLowerIdempotent(s: string)
    ensures ToLower(ToLower(s)) == ToLower(s)
  {
  }

  lemma ToLowerWhitespace(s: string)
    requires AllWhitespace(s)
    ensures ToLower(s) == s
  {
  }

  lemma ToLowerConcat(a: string, b: string)
    ensures ToLower(a + b) == ToLower(a) + ToLower(b)
  {
  }
}
