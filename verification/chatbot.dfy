/** The chat assistant: a case-insensitive keyword classifier that picks one
    of eight fixed replies, and the message list the chat window shows. */
module Chatbot {
  import opened Common
  import Text

  /** The eight fixed replies. */
  const AdmissionReply := "Admission requirements include: Completed application form, Transcript of records or Form 137, and interview. Specific requirements may vary by program."
  const ProgramReply := "We offer programs in Preschool: (Nursery, Kinder Garten), Elementary Level, One on One tutorial Services(Online & Face to Face), and also Summer Class. Each program has specialized tracks for advanced study."
  const FeeReply := "Tuition fees may vary by program. On average, programs cost \U{20B1}5,000 per grading. We offer scholarships and financial aid to qualified students."
  const DeadlineReply := "The application deadline for the next academic year is June 15. Late applications may be accepted based on availability."
  const ContactReply := "You can reach us at: Phone: +63993 617 8050, Email: jemmonte926@gmail.com, or visit our School at Phase 6 Blk 3 Lot 4 Eastwood Residences San Isidro , Rodriguez, Philippines, 1860."
  const FacilityReply := "Our campus features air conditioned classrooms, modern classrooms, science labs, computer labs, a library, sports facilities, and student lounges. We also have a cafeteria and health center."
  const GreetingReply := "Hello! How can I assist you with JBMMSI information today?"
  const FallbackReply := "I'm sorry, I don't have information about that. For specific questions, please contact our admissions office at +63993 617 8050  or email us @ jemmonte926@gmail.com"

  /** What a message is about; the first seven are the keyword categories in
      priority order. */
  datatype Topic = Admission | Programs | Fees | Deadlines | Contact | Facilities | Greeting | Unknown

  /** The keyword categories, highest priority first. */
  const Keywords: seq<seq<string>> := [
    ["admission", "requirement"],
    ["program", "course"],
    ["fee", "tuition", "cost"],
    ["deadline", "apply"],
    ["contact", "email", "phone"],
    ["facility", "campus"],
    ["hello", "hi", "hey"]
  ]

  /** The topic of category `k`; past the last category, `Unknown`. */
  function TopicAt(k: nat): Topic
  {
    if k < 7 then [Admission, Programs, Fees, Deadlines, Contact, Facilities, Greeting][k] else Unknown
  }

  /** The fixed reply for each topic. */
  function ReplyText(t: Topic): string
  {
    match t
    case Admission => AdmissionReply
    case Programs => ProgramReply
    case Fees => FeeReply
    case Deadlines => DeadlineReply
    case Contact => ContactReply
    case Facilities => FacilityReply
    case Greeting => GreetingReply
    case Unknown => FallbackReply
  }

  /** The category index of a keyword topic: the inverse of `TopicAt`. */
  function TopicIndex(t: Topic): (k: nat)
    requires t != Unknown
    ensures k < |Keywords| && TopicAt(k) == t
  {
    match t
    case Admission => 0
    case Programs => 1
    case Fees => 2
    case Deadlines => 3
    case Contact => 4
    case Facilities => 5
    case Greeting => 6
  }

  /** Some word of `words` occurs in `s`. */
  predicate AnyIncluded(s: string, words: seq<string>)
  {
    exists i :: 0 <= i < |words| && Text.Includes(s, words[i])
  }

  /** Category `k` matches the lower-cased message. */
  predicate CategoryMatches(lower: string, k: int)
    requires 0 <= k < |Keywords|
  {
    AnyIncluded(lower, Keywords[k])
  }

  /** The classification `getBotResponse` performs: the message is
      lower-cased, then the categories are tried in order with `includes`,
      the first hit decides. */
  function TopicOf(userMessage: string): (r: Topic)
    ensures r != Unknown ==> CategoryMatches(Text.ToLower(userMessage), TopicIndex(r))
  {
    var lower := Text.ToLower(userMessage);
    CategoryTable(lower);
    if Text.Includes(lower, "admission") || Text.Includes(lower, "requirement") then Admission
    else if Text.Includes(lower, "program") || Text.Includes(lower, "course") then Programs
    else if Text.Includes(lower, "fee") || Text.Includes(lower, "tuition") || Text.Includes(lower, "cost") then Fees
    else if Text.Includes(lower, "deadline") || Text.Includes(lower, "apply") then Deadlines
    else if Text.Includes(lower, "contact") || Text.Includes(lower, "email") || Text.Includes(lower, "phone") then Contact
    else if Text.Includes(lower, "facility") || Text.Includes(lower, "campus") then Facilities
    else if Text.Includes(lower, "hello") || Text.Includes(lower, "hi") || Text.Includes(lower, "hey") then Greeting
    else Unknown
  }

  /** `getBotResponse`: the reply of the message's topic, always one of the
      eight fixed strings. */
  function BotResponse(userMessage: string): (r: string)
    ensures exists t :: r == ReplyText(t)
  {
    ReplyText(TopicOf(userMessage))
  }

  /** The index of the first category at or after `k` that matches, or
      `|Keywords|` when none does: the reference the classifier is checked
      against. */
  function FirstMatch(lower: string, k: nat): (r: nat)
    requires k <= |Keywords|
    ensures k <= r <= |Keywords|
    ensures r < |Keywords| ==> CategoryMatches(lower, r)
    ensures forall j :: k <= j < r ==> !CategoryMatches(lower, j)
    decreases |Keywords| - k
  {
    if k == |Keywords| then k
    else if CategoryMatches(lower, k) then k
    else FirstMatch(lower, k + 1)
  }

  /** The length of each reply. */
  function ReplyLength(t: Topic): nat
  {
    match t
    case Admission => 152
    case Programs => 207
    case Fees => 142
    case Deadlines => 120
    case Contact => 180
    case Facilities => 190
    case Greeting => 58
    case Unknown => 164
  }

  /** The eight replies are pairwise different (their lengths differ), so a
      reply identifies its topic. */
  lemma {:induction false} RepliesDistinct(t: Topic, u: Topic)
    ensures ReplyText(t) == ReplyText(u) <==> t == u
  {
    assert |ReplyText(t)| == ReplyLength(t) && |ReplyText(u)| == ReplyLength(u);
  }

  /** The classifier picks the topic of the first matching category, or
      `Unknown` when no category matches. */
  lemma {:induction false} TopicIsFirstMatch(userMessage: string)
    ensures TopicOf(userMessage) == TopicAt(FirstMatch(Text.ToLower(userMessage), 0))
  {
    var lower := Text.ToLower(userMessage);
    CategoryTable(lower);
    var f := FirstMatch(lower, 0);
    if CategoryMatches(lower, 0) {
      assert f == 0;
    } else if CategoryMatches(lower, 1) {
      assert f == 1;
    } else if CategoryMatches(lower, 2) {
      assert f == 2;
    } else if CategoryMatches(lower, 3) {
      assert f == 3;
    } else if CategoryMatches(lower, 4) {
      assert f == 4;
    } else if CategoryMatches(lower, 5) {
      assert f == 5;
    } else if CategoryMatches(lower, 6) {
      assert f == 6;
    } else {
      assert f == 7;
    }
  }

  /** The keyword table, category by category, as the `includes` tests of the
      classifier. */
  lemma CategoryTable(lower: string)
    ensures CategoryMatches(lower, 0) == (Text.Includes(lower, "admission") || Text.Includes(lower, "requirement"))
    ensures CategoryMatches(lower, 1) == (Text.Includes(lower, "program") || Text.Includes(lower, "course"))
    ensures CategoryMatches(lower, 2) == (Text.Includes(lower, "fee") || Text.Includes(lower, "tuition") || Text.Includes(lower, "cost"))
    ensures CategoryMatches(lower, 3) == (Text.Includes(lower, "deadline") || Text.Includes(lower, "apply"))
    ensures CategoryMatches(lower, 4) == (Text.Includes(lower, "contact") || Text.Includes(lower, "email") || Text.Includes(lower, "phone"))
    ensures CategoryMatches(lower, 5) == (Text.Includes(lower, "facility") || Text.Includes(lower, "campus"))
    ensures CategoryMatches(lower, 6) == (Text.Includes(lower, "hello") || Text.Includes(lower, "hi") || Text.Includes(lower, "hey"))
  {
    AnyOfTwo(lower, "admission", "requirement");
    AnyOfTwo(lower, "program", "course");
    AnyOfThree(lower, "fee", "tuition", "cost");
    AnyOfTwo(lower, "deadline", "apply");
    AnyOfThree(lower, "contact", "email", "phone");
    AnyOfTwo(lower, "facility", "campus");
    AnyOfThree(lower, "hello", "hi", "hey");
  }

  lemma AnyOfTwo(s: string, a: string, b: string)
    ensures AnyIncluded(s, [a, b]) <==> Text.Includes(s, a) || Text.Includes(s, b)
  {
    if Text.Includes(s, a) {
      assert [a, b][0] == a;
    }
    if Text.Includes(s, b) {
      assert [a, b][1] == b;
    }
  }

  lemma AnyOfThree(s: string, a: string, b: string, c: string)
    ensures AnyIncluded(s, [a, b, c]) <==> Text.Includes(s, a) || Text.Includes(s, b) || Text.Includes(s, c)
  {
    if Text.Includes(s, a) {
      assert [a, b, c][0] == a;
    }
    if Text.Includes(s, b) {
      assert [a, b, c][1] == b;
    }
    if Text.Includes(s, c) {
      assert [a, b, c][2] == c;
    }
  }

  /** Priority order: a message is classified under category `k` exactly
      when category `k` matches and no earlier category does. */
  lemma PriorityOrder(userMessage: string, k: nat)
    requires k < |Keywords|
    ensures var lower := Text.ToLower(userMessage);
            TopicOf(userMessage) == TopicAt(k)
            <==> CategoryMatches(lower, k) && forall j :: 0 <= j < k ==> !CategoryMatches(lower, j)
  {
    var lower := Text.ToLower(userMessage);
    TopicIsFirstMatch(userMessage);
    var f := FirstMatch(lower, 0);
    TopicAtInjective(f, k);
    if CategoryMatches(lower, k) && forall j :: 0 <= j < k ==> !CategoryMatches(lower, j) {
      assert f == k;
    }
  }

  /** Different categories, and the past-the-end index, have different topics. */
  lemma TopicAtInjective(i: nat, j: nat)
    requires i <= |Keywords| && j <= |Keywords|
    ensures TopicAt(i) == TopicAt(j) <==> i == j
  {
  }

  /** A message containing none of the keywords falls through to `Unknown`,
      and only such messages do. */
  lemma FallbackIffNoKeyword(userMessage: string)
    ensures var lower := Text.ToLower(userMessage);
            TopicOf(userMessage) == Unknown
            <==> forall k :: 0 <= k < |Keywords| ==> !CategoryMatches(lower, k)
  {
    TopicIsFirstMatch(userMessage);
  }

  /** The fallback reply is given exactly to the messages classified `Unknown`. */
  lemma FallbackReplyIffUnknown(userMessage: string)
    ensures BotResponse(userMessage) == FallbackReply <==> TopicOf(userMessage) == Unknown
  {
    RepliesDistinct(TopicOf(userMessage), Unknown);
  }

  /** Two messages get the same reply exactly when they are classified alike. */
  lemma SameReplyIffSameTopic(a: string, b: string)
    ensures BotResponse(a) == BotResponse(b) <==> TopicOf(a) == TopicOf(b)
  {
    RepliesDistinct(TopicOf(a), TopicOf(b));
  }

  /** Matching ignores case: lowering the message first changes nothing. */
  lemma CaseInsensitive(userMessage: string)
    ensures BotResponse(Text.ToLower(userMessage)) == BotResponse(userMessage)
  {
    Text.ToLowerIdempotent(userMessage);
    TopicIsFirstMatch(userMessage);
    TopicIsFirstMatch(Text.ToLower(userMessage));
  }

  /** Two ASCII messages that differ only in letter case get the same reply. */
  lemma {:induction false} CaseBlindReply(a: string, b: string)
    requires Text.IsAscii(a) && Text.IsAscii(b) && |a| == |b|
    requires forall i :: 0 <= i < |a| ==> Text.LowerChar(a[i]) == Text.LowerChar(b[i])
    ensures BotResponse(a) == BotResponse(b)
  {
    SameLowerForm(a, b);
    SameLowerSameTopic(a, b);
    SameReplyIffSameTopic(a, b);
  }

  lemma SameLowerSameTopic(a: string, b: string)
    requires Text.ToLower(a) == Text.ToLower(b)
    ensures TopicOf(a) == TopicOf(b)
  {
    TopicIsFirstMatch(a);
    TopicIsFirstMatch(b);
  }

  lemma {:induction false} SameLowerForm(a: string, b: string)
    requires Text.IsAscii(a) && Text.IsAscii(b) && |a| == |b|
    requires forall i :: 0 <= i < |a| ==> Text.LowerChar(a[i]) == Text.LowerChar(b[i])
    ensures Text.ToLower(a) == Text.ToLower(b)
  {
    var la, lb := Text.ToLower(a), Text.ToLower(b);
    forall i | 0 <= i < |la|
      ensures la[i] == lb[i]
    {
      assert [la[i]] == Text.LowerChar(a[i]) == Text.LowerChar(b[i]) == [lb[i]];
    }
  }

  datatype Sender = User | Bot

  datatype Message = Message(text: string, sender: Sender)

  /** The chat window: the message list and the input field. */
  datatype ChatState = ChatState(messages: seq<Message>, input: string)

  /** The two greetings the chat starts with, and an empty input field. */
  const InitialChat := ChatState([
    Message("Hi there! I'm JBMMSI Assistant. How can I help you today?", Bot),
    Message("Here are some things I can help with:\n\U{2022} Admission requirements\n\U{2022} Program information\n\U{2022} Application deadlines\n\U{2022} Campus facilities", Bot)
  ], "")

  /** The state right after `sendMessage`, with the reply the delayed callback
      will append (`None` when nothing was sent). */
  datatype Sent = Sent(state: ChatState, pendingReply: Option<string>)

  /** `sendMessage`: a blank input is ignored; otherwise the untrimmed input is
      appended as a user message, the input field is cleared, and the reply to
      that same text is scheduled. */
  function SendMessage(s: ChatState): (r: Sent)
    ensures Text.IsBlank(s.input) ==> r == Sent(s, None)
    ensures !Text.IsBlank(s.input) ==>
              && r.state.messages == s.messages + [Message(s.input, User)]
              && r.state.input == ""
              && r.pendingReply == Some(BotResponse(s.input))
  {
    Text.TrimEmptyIffBlank(s.input);
    if Text.Trim(s.input) != [] then
      Sent(ChatState(s.messages + [Message(s.input, User)], ""), Some(BotResponse(s.input)))
    else
      Sent(s, None)
  }

  /** The delayed callback: the scheduled reply is appended as a bot message. */
  function ReplyArrives(s: ChatState, reply: Option<string>): (r: ChatState)
    ensures reply.None? ==> r == s
    ensures reply.Some? ==> r.messages == s.messages + [Message(reply.value, Bot)] && r.input == s.input
  {
    match reply
    case None => s
    case Some(text) => s.(messages := s.messages + [Message(text, Bot)])
  }

  /** A non-blank message followed by its reply grows the list by exactly two
      messages: the user's text, then the bot's answer to that same text. */
  lemma {:induction false} SendThenReply(s: ChatState)
    requires !Text.IsBlank(s.input)
    ensures var sent := SendMessage(s);
            var r := ReplyArrives(sent.state, sent.pendingReply);
            && r.messages == s.messages + [Message(s.input, User), Message(BotResponse(s.input), Bot)]
            && r.input == ""
  {
    var sent := SendMessage(s);
    AppendTwice(s.messages, Message(s.input, User), Message(BotResponse(s.input), Bot));
  }

  /** The first question asked in a fresh chat lands after the two greetings,
      and its answer right after it. */
  lemma {:induction false} FirstExchange(question: string)
    requires !Text.IsBlank(question)
    ensures |InitialChat.messages| == 2 && InitialChat.input == ""
    ensures var start := InitialChat.(input := question);
            var sent := SendMessage(start);
            ReplyArrives(sent.state, sent.pendingReply).messages
            == InitialChat.messages + [Message(question, User), Message(BotResponse(question), Bot)]
  {
    SendThenReply(InitialChat.(input := question));
  }

  lemma AppendTwice(xs: seq<Message>, a: Message, b: Message)
    ensures xs + [a] + [b] == xs + [a, b]
  {
  }
}
