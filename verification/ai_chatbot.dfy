/** The chat assistant: a prioritised keyword-to-reply table over the
    lower-cased message, and the send step that ignores blank input. */
module AIChatbot {
  import opened Optional
  import opened Strings

  /** The keys of the canned replies. */
  datatype ReplyKey = Bedroom | Energy | Commercial | Default

  /** `mockResponses[key]`. */
  function ReplyText(key: ReplyKey): string {
    match key
    case Bedroom => "For bedrooms, I recommend our warm white LED bulbs (2700K-3000K) in 9W or 12W. They create a cozy, relaxing atmosphere perfect for rest. Would you like me to show you our options?"
    case Energy => "Our LED bulbs save up to 80% energy compared to traditional bulbs! All our products are BIS certified and designed for Indian voltage conditions. The 9W LED equals a 60W traditional bulb."
    case Commercial => "For commercial spaces, we offer Panel Lights, Down Lights, and Flood Lights. Popular choices include 18W Panel Lights for offices and 50W Flood Lights for outdoor areas. What type of space are you lighting?"
    case Default => "Thank you for your question! I can help you choose the perfect lighting solution. Could you tell me more about the space you want to light up - is it for home, office, or commercial use?"
  }

  const RoomWords: seq<string> := ["bedroom", "room", "home"]
  const EnergyWords: seq<string> := ["energy", "save", "efficient"]
  const CommercialWords: seq<string> := ["commercial", "office", "shop"]

  /** Some keyword occurs in `text`. */
  predicate Mentions(text: string, words: seq<string>) {
    exists k :: 0 <= k < |words| && Contains(text, words[k])
  }

  function ContainsAny(text: string, words: seq<string>): (b: bool)
    ensures b <==> Mentions(text, words)
  {
    if words == [] then false
    else
      assert forall k :: 1 <= k < |words| ==> words[k] == words[1..][k - 1];
      Contains(text, words[0]) || ContainsAny(text, words[1..])
  }

  /** The key `getResponse` picks: the first keyword group that the
      lower-cased text mentions; room words win over energy words, energy
      words over commercial ones. */
  function Classify(text: string): (key: ReplyKey)
    ensures Mentions(Lower(text), RoomWords) <==> key == Bedroom
    ensures key == Energy <==>
      !Mentions(Lower(text), RoomWords) && Mentions(Lower(text), EnergyWords)
    ensures key == Commercial <==>
      !Mentions(Lower(text), RoomWords) && !Mentions(Lower(text), EnergyWords)
      && Mentions(Lower(text), CommercialWords)
    ensures key == Default <==>
      !Mentions(Lower(text), RoomWords) && !Mentions(Lower(text), EnergyWords)
      && !Mentions(Lower(text), CommercialWords)
  {
    var lower := Lower(text);
    if ContainsAny(lower, RoomWords) then Bedroom
    else if ContainsAny(lower, EnergyWords) then Energy
    else if ContainsAny(lower, CommercialWords) then Commercial
    else Default
  }

  /** `getResponse`: the bedroom reply when a room word is mentioned, the
      energy reply when an energy word is and no room word, the commercial
      reply when only commercial words are, and the default reply when none
      is. The four cases cover every text, so they fix the reply. */
  function GetResponse(text: string): (r: string)
    ensures Mentions(Lower(text), RoomWords) ==> r == ReplyText(Bedroom)
    ensures !Mentions(Lower(text), RoomWords) && Mentions(Lower(text), EnergyWords) ==>
      r == ReplyText(Energy)
    ensures (!Mentions(Lower(text), RoomWords) && !Mentions(Lower(text), EnergyWords)
             && Mentions(Lower(text), CommercialWords)) ==> r == ReplyText(Commercial)
    ensures (!Mentions(Lower(text), RoomWords) && !Mentions(Lower(text), EnergyWords)
             && !Mentions(Lower(text), CommercialWords)) ==> r == ReplyText(Default)
  {
    ReplyText(Classify(text))
  }

  /** The reply does not depend on letter case. */
  lemma ResponseIgnoresCase(text: string)
    ensures Classify(Lower(text)) == Classify(text)
    ensures GetResponse(Lower(text)) == GetResponse(text)
  {
    LowerIdempotent(text);
  }

  /** A message mentioning a room gets the bedroom reply even when it also
      asks about energy or shops. */
  lemma RoomWordsWin(text: string)
    requires Contains(Lower(text), "room")
    ensures Classify(text) == Bedroom
  {
    assert RoomWords[1] == "room";
  }

  /** The "bedroom" keyword never decides anything on its own: every text
      containing it contains "room". */
  lemma BedroomImpliesRoom(text: string)
    requires Contains(text, "bedroom")
    ensures Contains(text, "room")
  {
    var i :| OccursAt(text, "bedroom", i);
    assert text[i + 3..i + 7] == "bedroom"[3..7] == "room";
    assert OccursAt(text, "room", i + 3);
  }

  datatype Role = User | Assistant

  datatype Message = Message(id: string, role: Role, content: string)

  datatype Chat = Chat(messages: seq<Message>, input: string, isTyping: bool)

  /** `text || input.trim()`: the quick question when given and non-empty,
      else the trimmed input. */
  function MessageText(c: Chat, text: Option<string>): (m: string)
    ensures text.Some? && text.value != [] ==> m == text.value
    ensures (text.None? || text.value == []) ==> m == Trim(c.input)
  {
    if text.Some? && text.value != [] then text.value else Trim(c.input)
  }

  /** The synchronous half of `handleSend`: blank text changes nothing;
      otherwise the user's message is appended, the input cleared and the
      typing indicator shown. `now` is the clock reading used as the id. */
  function Send(c: Chat, text: Option<string>, now: nat): (r: Chat)
    ensures r == c <==> MessageText(c, text) == []
    ensures |r.messages| >= |c.messages| && r.messages[..|c.messages|] == c.messages
    ensures MessageText(c, text) != [] ==>
      && |r.messages| == |c.messages| + 1
      && r.messages[|c.messages|] == Message(NatToString(now), User, MessageText(c, text))
      && r.input == [] && r.isTyping
  {
    var m := MessageText(c, text);
    if m == [] then c
    else Chat(c.messages + [Message(NatToString(now), User, m)], [], true)
  }

  /** The half after the delay: the reply to `messageText` is appended and
      the typing indicator hidden. */
  function Reply(c: Chat, messageText: string, now: nat): (r: Chat)
    ensures r.messages == c.messages + [Message(NatToString(now + 1), Assistant, GetResponse(messageText))]
    ensures !r.isTyping && r.input == c.input
  {
    c.(messages := c.messages + [Message(NatToString(now + 1), Assistant, GetResponse(messageText))], isTyping := false)
  }

  /** A whitespace-only typed message with no quick question is ignored. */
  lemma BlankInputIgnored(c: Chat, now: nat)
    requires forall i :: 0 <= i < |c.input| ==> IsSpace(c.input[i])
    ensures Send(c, None, now) == c
  {
  }
}
