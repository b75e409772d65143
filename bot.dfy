/** The per-user session state machine of the PowerX customer-service bot:
    the two process-wide maps (message count and transcript per user), the
    rules that accept or reject an inbound message, the call to the language
    model, and the transcript export that ends a session after 25 messages. */
module Bot {
  import opened Text

  /** A messaging-platform user identifier. */
  type UserId = int

  datatype Option<T> = None | Some(value: T)

  /** Accepted messages per session; the 25th answered one ends the session. */
  const MAX_MESSAGES: nat := 25
  /** Longest text, in code points, that is not rejected as too long. */
  const MAX_TEXT_LENGTH: nat := 500

  /** The two trigger words ("location", "where") of the canned location reply. */
  const LOCATION_WORD: string := "موقع"
  const WHERE_WORD: string := "وين"
  /** Speaker marks of the transcript lines. */
  const USER_MARK: string := "👤 "
  const BOT_MARK: string := "🤖 "
  /** What replaces a model answer that is empty once stripped. */
  const FALLBACK_REPLY: string := "🤖 ما قدرت أفهمك، ممكن تعيد سؤالك؟"
  /** What separates two transcript lines in the email body. */
  const BODY_SEPARATOR: string := "\n\n"

  /** What the language-model call produced: the content of the first
      choice, or the text of the exception it raised. */
  datatype Completion = Answer(content: string) | Failure(detail: string)

  /** A reply the bot sends back to the user; `ReplyText` gives its text. */
  datatype Reply =
    | AskClearly                          // the text was blank
    | TooLong                             // the text was over 500 code points
    | QuotaReached                        // the count went over the limit
    | Location(location: Option<string>)  // the canned location reply
    | Answered(reply: string)             // the model's (stripped or fallback) answer
    | ErrorNotice(detail: string)         // the model call failed
    | Closing                             // sent after the answer that ends a session

  /** The fixed reply texts. */
  const ASK_CLEARLY_TEXT: string := "📝 أرسل لنا سؤالك أو استفسارك بشكل واضح."
  const TOO_LONG_TEXT: string := "🛑 الرسالة طويلة جدًا، ممكن تختصر شوي؟"
  const QUOTA_TEXT: string := "🚫 وصلت الحد الأقصى من الرسائل المسموح بها."
  const LOCATION_PREFIX: string := "📍 موقعنا: "
  const ERROR_PREFIX: string := "⚠️ صار خطأ: "
  const CLOSING_TEXT: string := "\n📞 لمزيد من المعلومات والاستفسارات يُرجى الاتصال أو إرسال واتساب على الرقم 0597218485"

  /** The text of each reply; an unset location prints as Python prints `None`.
      An answer is sent as it is, an error notice ends with the exception text,
      and a location reply with the configured location. */
  function ReplyText(r: Reply): (t: string)
    ensures r.Answered? ==> t == r.reply
    ensures r.ErrorNotice? ==> |r.detail| <= |t| && t[|t| - |r.detail|..] == r.detail
    ensures r.Location? && r.location.Some? ==> |r.location.value| <= |t| && t[|t| - |r.location.value|..] == r.location.value
  {
    match r
    case AskClearly => ASK_CLEARLY_TEXT
    case TooLong => TOO_LONG_TEXT
    case QuotaReached => QUOTA_TEXT
    case Location(location) =>
      var shown := if location.Some? then location.value else "None";
      EndsWith(LOCATION_PREFIX, shown);
      LOCATION_PREFIX + shown
    case Answered(reply) => reply
    case ErrorNotice(detail) =>
      EndsWith(ERROR_PREFIX, detail);
      ERROR_PREFIX + detail
    case Closing => CLOSING_TEXT
  }

  /** The transcript email: the user it is about and its plain-text body.
      Its subject (which holds the send time) and the SMTP delivery are not
      modelled; delivery failures are swallowed, so sending never fails. */
  datatype Email = Email(user: UserId, body: string)

  /** The two maps, keyed by user. An absent key stands for a count of 0
      and an empty transcript, as a `defaultdict` does. */
  datatype Store = Store(counts: map<UserId, nat>, convs: map<UserId, seq<string>>)

  /** What handling one message produces: the new maps, the replies sent
      in order, and the email sent, if any. */
  datatype Outcome = Outcome(store: Store, replies: seq<Reply>, email: Option<Email>)

  const EMPTY_STORE: Store := Store(map[], map[])

  function Count(s: Store, u: UserId): nat {
    if u in s.counts then s.counts[u] else 0
  }

  function Transcript(s: Store, u: UserId): seq<string> {
    if u in s.convs then s.convs[u] else []
  }

  /** Blank text is empty or only whitespace: its `strip()` is empty. */
  predicate IsBlank(text: string)
    ensures IsBlank(text) <==> SpaceBetween(text, 0, |text|)
  {
    StripTrims(text);
    Strip(text) == []
  }

  /** Text that passes both text checks and is counted: it is never empty. */
  predicate Accepted(text: string)
    ensures Accepted(text) ==> 0 < |text| <= MAX_TEXT_LENGTH
  {
    !IsBlank(text) && |text| <= MAX_TEXT_LENGTH
  }

  /** The text asks where the business is: one of the two trigger words occurs
      in it. The handler lower-cases the text first; both trigger words are
      Arabic, which has no case, so lower-casing cannot make or break a match
      and is left out. */
  predicate AsksLocation(text: string)
    ensures AsksLocation(text) <==>
      (exists i :: OccursAt(text, LOCATION_WORD, i)) || (exists i :: OccursAt(text, WHERE_WORD, i))
  {
    ContainsIff(text, LOCATION_WORD);
    ContainsIff(text, WHERE_WORD);
    Contains(text, LOCATION_WORD) || Contains(text, WHERE_WORD)
  }

  /** The reply sent for a model answer: the stripped content, or the
      fallback text when nothing is left. */
  function BotReply(content: string): (r: string)
    ensures r != []
  {
    var reply := Strip(content);
    if reply == [] then FALLBACK_REPLY else reply
  }

  /** The reply to a model answer is never empty and never surrounded by
      whitespace; it is the stripped content unless the content is blank,
      in which case it is the fallback text. A content that strips to the
      fallback text itself is not blank and also gives the fallback text. */
  lemma BotReplyIsTrimmed(content: string)
    ensures var r := BotReply(content);
      && r != [] && !IsSpace(r[0]) && !IsSpace(r[|r| - 1])
      && (IsBlank(content) ==> r == FALLBACK_REPLY)
      && (!IsBlank(content) ==> r == Strip(content))
      && (r == FALLBACK_REPLY <==> IsBlank(content) || Strip(content) == FALLBACK_REPLY)
  {
    StripTrims(content);
    assert !IsSpace(FALLBACK_REPLY[0]) && !IsSpace(FALLBACK_REPLY[|FALLBACK_REPLY| - 1]);
  }

  /** The transcript line of a user message; `LinesAreMarked` states its shape. */
  function UserLine(text: string): string {
    USER_MARK + text
  }

  /** The transcript line of a bot answer; `LinesAreMarked` states its shape. */
  function BotLine(reply: string): string {
    BOT_MARK + reply
  }

  /** The body `send_email` builds: the transcript lines separated by blank
      lines, so it holds every line and one blank line between each two. */
  function EmailBody(lines: seq<string>): (body: string)
    ensures lines != [] ==> |body| == TotalLength(lines) + |BODY_SEPARATOR| * (|lines| - 1)
  {
    Join(lines, BODY_SEPARATOR)
  }

  /** The email body of a transcript with one more exchange is the old body
      followed by the user line and the bot line, each after a blank line. */
  lemma EmailBodyOfExchange(lines: seq<string>, userLine: string, botLine: string)
    ensures EmailBody(lines + [userLine, botLine]) ==
      if lines == [] then userLine + BODY_SEPARATOR + botLine
      else EmailBody(lines) + BODY_SEPARATOR + userLine + BODY_SEPARATOR + botLine
  {
    JoinAppend(lines, userLine, BODY_SEPARATOR);
    assert lines + [userLine, botLine] == (lines + [userLine]) + [botLine];
    JoinAppend(lines + [userLine], botLine, BODY_SEPARATOR);
  }

  /** The message reaches the language model: it passes the text checks, the
      count after the increment is within the limit, and it is not a location
      question. */
  predicate ReachesModel(s: Store, user: UserId, text: string) {
    Accepted(text) && Count(s, user) < MAX_MESSAGES && !AsksLocation(text)
  }

  /** One inbound message `text` from `user`, handled against the maps `s`
      by a bot configured with `location`; `completion` is what the language
      model would produce for it. */
  function Step(s: Store, location: Option<string>, user: UserId, text: string, completion: Completion): (o: Outcome)
    // The two text checks, in this order, reply and change nothing.
    ensures IsBlank(text) ==> o == Outcome(s, [AskClearly], None)
    ensures !IsBlank(text) && |text| > MAX_TEXT_LENGTH ==> o == Outcome(s, [TooLong], None)
    // Only the sending user's entries change.
    ensures o.store.counts - {user} == s.counts - {user}
    ensures o.store.convs - {user} == s.convs - {user}
    // An accepted message adds one to the count, and nothing takes it back
    // except the export that ends the session.
    ensures Accepted(text) && o.email == None ==>
      user in o.store.counts && o.store.counts[user] == Count(s, user) + 1
    // The export happens exactly when the 25th message is answered ...
    ensures o.email.Some? <==>
      ReachesModel(s, user, text) && completion.Answer? && Count(s, user) + 1 == MAX_MESSAGES
    // ... and then ends the session of that user.
    ensures o.email.Some? ==> o.email.value.user == user && user !in o.store.counts && user !in o.store.convs
  {
    if IsBlank(text) then Outcome(s, [AskClearly], None)
    else if |text| > MAX_TEXT_LENGTH then Outcome(s, [TooLong], None)
    else
      var n := Count(s, user) + 1;
      var counts := s.counts[user := n];
      if n > MAX_MESSAGES then Outcome(Store(counts, s.convs), [QuotaReached], None)
      else if AsksLocation(text) then Outcome(Store(counts, s.convs), [Location(location)], None)
      else
        ModelTurn(Store(counts, s.convs), user, text, completion)
  }

  /** The part of the handler that consults the language model, run on the
      maps `s` after the count of `user` was raised to a value within the
      limit: the user line is recorded, then the answer (or the failure) is
      handled, and the 25th answer ends the session. */
  function ModelTurn(s: Store, user: UserId, text: string, completion: Completion): (o: Outcome)
    requires 1 <= Count(s, user) <= MAX_MESSAGES
    ensures o.store.counts - {user} == s.counts - {user}
    ensures o.store.convs - {user} == s.convs - {user}
    ensures o.email.Some? <==> completion.Answer? && Count(s, user) == MAX_MESSAGES
  {
    var asked := Transcript(s, user) + [UserLine(text)];
    match completion
    case Failure(detail) =>
      Outcome(Store(s.counts, s.convs[user := asked]), [ErrorNotice(detail)], None)
    case Answer(content) =>
      var reply := BotReply(content);
      var answered := Transcript(s, user) + [UserLine(text), BotLine(reply)];
      if Count(s, user) == MAX_MESSAGES then
        Outcome(Store(s.counts - {user}, s.convs - {user}), [Answered(reply), Closing], Some(Email(user, EmailBody(answered))))
      else
        Outcome(Store(s.counts, s.convs[user := answered]), [Answered(reply)], None)
  }

  /** Removing a key just set is removing it from the map before the set. */
  lemma RemoveUpdated<K, V>(m: map<K, V>, k: K, v: V)
    ensures m[k := v] - {k} == m - {k}
  {
  }

  /** Over the limit: the quota reply, the count raised, the transcript
      untouched, no export. */
  lemma QuotaPath(s: Store, location: Option<string>, user: UserId, text: string, completion: Completion)
    requires Accepted(text) && Count(s, user) >= MAX_MESSAGES
    ensures Step(s, location, user, text, completion) ==
      Outcome(Store(s.counts[user := Count(s, user) + 1], s.convs), [QuotaReached], None)
  {
  }

  /** A location question within the limit: the location reply, the count
      raised, the transcript untouched and no export, even on the 25th message. */
  lemma LocationPath(s: Store, location: Option<string>, user: UserId, text: string, completion: Completion)
    requires Accepted(text) && Count(s, user) < MAX_MESSAGES && AsksLocation(text)
    ensures Step(s, location, user, text, completion) ==
      Outcome(Store(s.counts[user := Count(s, user) + 1], s.convs), [Location(location)], None)
  {
  }

  /** A model failure: the count raised, the user line appended without a
      bot line, no export, and a reply carrying the error text. */
  lemma FailurePath(s: Store, location: Option<string>, user: UserId, text: string, detail: string)
    requires ReachesModel(s, user, text)
    ensures Step(s, location, user, text, Failure(detail)) ==
      Outcome(Store(s.counts[user := Count(s, user) + 1], s.convs[user := Transcript(s, user) + [UserLine(text)]]),
              [ErrorNotice(detail)], None)
  {
  }

  /** An answer below the limit: the count raised, the user line and then
      the bot line appended, the reply sent, no export. */
  lemma AnsweredPath(s: Store, location: Option<string>, user: UserId, text: string, content: string)
    requires ReachesModel(s, user, text) && Count(s, user) + 1 < MAX_MESSAGES
    ensures Step(s, location, user, text, Answer(content)) ==
      Outcome(Store(s.counts[user := Count(s, user) + 1],
                    s.convs[user := Transcript(s, user) + [UserLine(text), BotLine(BotReply(content))]]),
              [Answered(BotReply(content))], None)
  {
  }

  /** The 25th answered message: the reply, then the closing message; the
      email holds the whole transcript including the new exchange; both
      entries of the user are removed. */
  lemma ExportPath(s: Store, location: Option<string>, user: UserId, text: string, content: string)
    requires ReachesModel(s, user, text) && Count(s, user) + 1 == MAX_MESSAGES
    ensures Step(s, location, user, text, Answer(content)) ==
      Outcome(Store(s.counts - {user}, s.convs - {user}),
              [Answered(BotReply(content)), Closing],
              Some(Email(user, EmailBody(Transcript(s, user) + [UserLine(text), BotLine(BotReply(content))]))))
  {
  }

  /** The length limit is inclusive: a non-blank text of exactly 500 code
      points is not rejected as too long; it is counted. */
  lemma LengthLimitIsInclusive(s: Store, location: Option<string>, user: UserId, text: string, completion: Completion)
    requires !IsBlank(text) && |text| == MAX_TEXT_LENGTH
    ensures var o := Step(s, location, user, text, completion);
      && TooLong !in o.replies
      && (o.email == None ==> Count(o.store, user) == Count(s, user) + 1)
  {
    var n := Count(s, user) + 1;
    if n <= MAX_MESSAGES && !AsksLocation(text) {
      var t := Store(s.counts[user := n], s.convs);
      match completion
      case Failure(detail) =>
      case Answer(content) =>
        if n == MAX_MESSAGES {
          assert ModelTurn(t, user, text, completion).replies == [Answered(BotReply(content)), Closing];
        }
    }
  }

  /** After the export, the user's next accepted message starts a new
      session: it is counted as the first one. */
  lemma RestartAfterExport(s: Store, location: Option<string>, user: UserId, text: string, content: string,
                           next: string, completion: Completion)
    requires ReachesModel(s, user, text) && Count(s, user) + 1 == MAX_MESSAGES
    requires Accepted(next)
    ensures var o := Step(s, location, user, text, Answer(content));
      && o.email.Some?
      && Count(Step(o.store, location, user, next, completion).store, user) == 1
  {
    ExportPath(s, location, user, text, content);
  }

  /** A transcript line written for the user's side. */
  predicate IsUserLine(line: string) {
    |USER_MARK| <= |line| && line[..|USER_MARK|] == USER_MARK
  }

  /** A user line is marked as the user's and the text follows the mark
      unchanged; a bot line is never taken for a user line, and the answer
      follows its mark unchanged. */
  lemma LinesAreMarked(text: string, reply: string)
    ensures IsUserLine(UserLine(text)) && UserLine(text)[|USER_MARK|..] == text
    ensures !IsUserLine(BotLine(reply)) && |BOT_MARK| <= |BotLine(reply)| && BotLine(reply)[|BOT_MARK|..] == reply
  {
  }

  /** The number of user lines in a transcript. */
  function UserTurns(lines: seq<string>): nat {
    if lines == [] then 0
    else UserTurns(lines[..|lines| - 1]) + (if IsUserLine(lines[|lines| - 1]) then 1 else 0)
  }

  lemma {:induction false} UserTurnsAppend(lines: seq<string>, more: seq<string>)
    ensures UserTurns(lines + more) == UserTurns(lines) + UserTurns(more)
    decreases |more|
  {
    if more != [] {
      var init := more[..|more| - 1];
      assert (lines + more)[..|lines + more| - 1] == lines + init;
      assert (lines + more)[|lines + more| - 1] == more[|more| - 1];
      UserTurnsAppend(lines, init);
    } else {
      assert lines + more == lines;
    }
  }

  /** What every reachable pair of maps satisfies: a transcript exists only
      beside a count, counts start at 1, and a transcript holds no more user
      lines than the count and than the limit. Equality does not hold:
      quota and location messages are counted without a user line. */
  ghost predicate Invariant(s: Store) {
    && s.convs.Keys <= s.counts.Keys
    && (forall u | u in s.counts :: s.counts[u] >= 1)
    && (forall u | u in s.convs :: UserTurns(s.convs[u]) <= s.counts[u] && UserTurns(s.convs[u]) <= MAX_MESSAGES)
  }

  /** Raising one user's count keeps the invariant. */
  lemma RaiseKeepsInvariant(s: Store, user: UserId)
    requires Invariant(s)
    ensures Invariant(Store(s.counts[user := Count(s, user) + 1], s.convs))
  {
  }

  /** Raising one user's count and setting a transcript within the bounds
      keeps the invariant. */
  lemma RecordKeepsInvariant(s: Store, user: UserId, t: seq<string>)
    requires Invariant(s)
    requires UserTurns(t) <= Count(s, user) + 1 && UserTurns(t) <= MAX_MESSAGES
    ensures Invariant(Store(s.counts[user := Count(s, user) + 1], s.convs[user := t]))
  {
  }

  /** Removing both entries of a user keeps the invariant. */
  lemma ClearKeepsInvariant(s: Store, user: UserId)
    requires Invariant(s)
    ensures Invariant(Store(s.counts - {user}, s.convs - {user}))
  {
  }

  /** One more user line, and possibly a bot line, keeps the transcript
      bounds when the count was below the limit before the raise. */
  lemma ExchangeKeepsBounds(t: seq<string>, count: nat, text: string, bot: seq<string>)
    requires UserTurns(t) <= count < MAX_MESSAGES
    requires |bot| <= 1
    requires forall i | 0 <= i < |bot| :: |BOT_MARK| <= |bot[i]| && bot[i][..|BOT_MARK|] == BOT_MARK
    ensures UserTurns(t + [UserLine(text)] + bot) <= count + 1 <= MAX_MESSAGES
  {
    var none: seq<string> := [];
    assert [UserLine(text)][..0] == none;
    assert UserLine(text)[..|USER_MARK|] == USER_MARK;
    UserTurnsAppend(t, [UserLine(text)]);
    if bot != [] {
      assert bot[0][0] == BOT_MARK[0] != USER_MARK[0];
      assert bot[..0] == none;
    }
    assert UserTurns(bot) == 0;
    UserTurnsAppend(t + [UserLine(text)], bot);
  }

  /** Every step keeps the invariant. */
  lemma StepKeepsInvariant(s: Store, location: Option<string>, user: UserId, text: string, completion: Completion)
    requires Invariant(s)
    ensures Invariant(Step(s, location, user, text, completion).store)
  {
    if !Accepted(text) {
    } else if Count(s, user) >= MAX_MESSAGES {
      QuotaPath(s, location, user, text, completion);
      RaiseKeepsInvariant(s, user);
    } else if AsksLocation(text) {
      LocationPath(s, location, user, text, completion);
      RaiseKeepsInvariant(s, user);
    } else {
      ModelTurnKeepsInvariant(s, location, user, text, completion);
    }
  }

  /** A message that reaches the model keeps the invariant. */
  lemma ModelTurnKeepsInvariant(s: Store, location: Option<string>, user: UserId, text: string, completion: Completion)
    requires Invariant(s) && ReachesModel(s, user, text)
    ensures Invariant(Step(s, location, user, text, completion).store)
  {
    match completion
    case Failure(detail) =>
      FailureKeepsInvariant(s, location, user, text, detail);
    case Answer(content) =>
      if Count(s, user) + 1 < MAX_MESSAGES {
        AnswerKeepsInvariant(s, location, user, text, content);
      } else {
        ExportPath(s, location, user, text, content);
        ClearKeepsInvariant(s, user);
      }
  }

  /** A failed model call keeps the invariant. */
  lemma FailureKeepsInvariant(s: Store, location: Option<string>, user: UserId, text: string, detail: string)
    requires Invariant(s) && ReachesModel(s, user, text)
    ensures Invariant(Step(s, location, user, text, Failure(detail)).store)
  {
    var t := Transcript(s, user);
    var asked := t + [UserLine(text)];
    FailurePath(s, location, user, text, detail);
    ExchangeKeepsBounds(t, Count(s, user), text, []);
    assert asked + [] == asked;
    RecordKeepsInvariant(s, user, asked);
  }

  /** An answer below the limit keeps the invariant. */
  lemma AnswerKeepsInvariant(s: Store, location: Option<string>, user: UserId, text: string, content: string)
    requires Invariant(s) && ReachesModel(s, user, text) && Count(s, user) + 1 < MAX_MESSAGES
    ensures Invariant(Step(s, location, user, text, Answer(content)).store)
  {
    var t := Transcript(s, user);
    var b := BotLine(BotReply(content));
    AnsweredPath(s, location, user, text, content);
    ExchangeKeepsBounds(t, Count(s, user), text, [b]);
    assert t + [UserLine(text)] + [b] == t + [UserLine(text), b];
    RecordKeepsInvariant(s, user, t + [UserLine(text), b]);
  }

  /** The count is not the number of user lines: one location question from
      a new user is counted but leaves no line. */
  lemma CountIsNotUserTurns(location: Option<string>, user: UserId, completion: Completion)
    ensures var o := Step(EMPTY_STORE, location, user, WHERE_WORD, completion);
      Count(o.store, user) == 1 && UserTurns(Transcript(o.store, user)) == 0
  {
    assert WHERE_WORD[..|WHERE_WORD|] == WHERE_WORD;
    assert !IsSpace(WHERE_WORD[0]);
    assert Strip(WHERE_WORD) != [];
  }

  /** The bot's two process-wide maps, `user_message_count` and
      `user_conversations`, and the location string it was configured with. */
  class Sessions {
    var counts: map<UserId, nat>
    var convs: map<UserId, seq<string>>
    const location: Option<string>

    /** A fresh process: both maps empty. */
    constructor (location: Option<string>)
      ensures counts == map[] && convs == map[] && this.location == location
    {
      counts := map[];
      convs := map[];
      this.location := location;
    }

    /** Handles one inbound message `text` from `user`. `completion` stands
        for the result of the language-model call made for it (unused when
        the call is not made). Returns the replies sent, in order, and the
        transcript email sent, if any. */
    method HandleMessage(user: UserId, text: string, completion: Completion)
      returns (replies: seq<Reply>, email: Option<Email>)
      modifies this
      ensures Outcome(Store(counts, convs), replies, email) == Step(Store(old(counts), old(convs)), location, user, text, completion)
    {
      var s := Store(counts, convs);
      email := None;
      if IsBlank(text) {
        replies := [AskClearly];
        return;
      }
      if |text| > MAX_TEXT_LENGTH {
        replies := [TooLong];
        return;
      }
      var n := Count(s, user) + 1;
      counts := counts[user := n];
      if n > MAX_MESSAGES {
        QuotaPath(s, location, user, text, completion);
        replies := [QuotaReached];
        return;
      }
      if AsksLocation(text) {
        LocationPath(s, location, user, text, completion);
        replies := [Location(location)];
        return;
      }
      replies, email := HandleModelTurn(user, text, completion);
    }

    /** The model-consulting part of `HandleMessage`, entered once the count
        of `user` has been raised within the limit. */
    method HandleModelTurn(user: UserId, text: string, completion: Completion)
      returns (replies: seq<Reply>, email: Option<Email>)
      requires 1 <= Count(Store(counts, convs), user) <= MAX_MESSAGES
      modifies this
      ensures Outcome(Store(counts, convs), replies, email) == ModelTurn(Store(old(counts), old(convs)), user, text, completion)
    {
      var s := Store(counts, convs);
      var n := Count(s, user);
      var asked := Transcript(s, user) + [UserLine(text)];
      convs := convs[user := asked];
      email := None;
      match completion
      case Failure(detail) =>
        replies := [ErrorNotice(detail)];
      case Answer(content) =>
        var reply := BotReply(content);
        var answered := asked + [BotLine(reply)];
        assert answered == Transcript(s, user) + [UserLine(text), BotLine(reply)];
        convs := convs[user := answered];
        if n == MAX_MESSAGES {
          replies := [Answered(reply), Closing];
          email := Some(Email(user, EmailBody(answered)));
          counts := counts - {user};
          convs := convs - {user};
          RemoveUpdated(s.convs, user, answered);
        } else {
          replies := [Answered(reply)];
        }
    }
  }
}
