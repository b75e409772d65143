/** Sequences of inbound messages handled one after another by one bot
    process: what the maps become, which replies and emails go out, and the
    session rules that span many messages (lock-out after the limit, the
    export that ends a full session, independence of users). */
module Runs {
  import opened Text
  import opened Bot

  /** One inbound message together with what the language model would
      produce for it. */
  datatype Inbound = Inbound(user: UserId, text: string, completion: Completion)

  /** What a run leaves: the final maps, the replies to each message in
      order, and the emails sent in order. */
  datatype Trace = Trace(store: Store, replies: seq<seq<Reply>>, emails: seq<Email>)

  /** The emails one step sends: none or one. */
  function Sent(e: Option<Email>): seq<Email> {
    if e.Some? then [e.value] else []
  }

  /** Handling `msgs` in order, starting from the maps `s`. */
  function Run(s: Store, location: Option<string>, msgs: seq<Inbound>): (t: Trace)
    ensures |t.replies| == |msgs|
    ensures |t.emails| <= |msgs|
    decreases |msgs|
  {
    if msgs == [] then Trace(s, [], [])
    else
      var m := msgs[0];
      var o := Step(s, location, m.user, m.text, m.completion);
      var rest := Run(o.store, location, msgs[1..]);
      Trace(rest.store, [o.replies] + rest.replies, Sent(o.email) + rest.emails)
  }

  /** A step for one user leaves the count and the transcript of every other
      user as they were. */
  lemma OtherUsersUnchanged(s: Store, location: Option<string>, user: UserId, text: string, completion: Completion, u: UserId)
    requires u != user
    ensures var o := Step(s, location, user, text, completion);
      Count(o.store, u) == Count(s, u) && Transcript(o.store, u) == Transcript(s, u)
  {
    var o := Step(s, location, user, text, completion);
    assert u in s.counts <==> u in s.counts - {user};
    assert u in o.store.counts <==> u in o.store.counts - {user};
    assert u in s.convs <==> u in s.convs - {user};
    assert u in o.store.convs <==> u in o.store.convs - {user};
  }

  /** Every run keeps the invariant of the maps. */
  lemma {:induction false} RunKeepsInvariant(s: Store, location: Option<string>, msgs: seq<Inbound>)
    requires Invariant(s)
    ensures Invariant(Run(s, location, msgs).store)
    decreases |msgs|
  {
    if msgs != [] {
      var m := msgs[0];
      StepKeepsInvariant(s, location, m.user, m.text, m.completion);
      RunKeepsInvariant(Step(s, location, m.user, m.text, m.completion).store, location, msgs[1..]);
    }
  }

  /** A fresh process only ever reaches maps that satisfy the invariant. */
  lemma ReachableKeepsInvariant(location: Option<string>, msgs: seq<Inbound>)
    ensures Invariant(Run(EMPTY_STORE, location, msgs).store)
  {
    RunKeepsInvariant(EMPTY_STORE, location, msgs);
  }

  /** One message handled while the count of `u` is at or above the limit:
      the count stays there, the transcript of `u` is unchanged, no email
      about `u` is sent, and an accepted message from `u` gets the quota reply. */
  lemma LockedOutStep(s: Store, location: Option<string>, u: UserId, m: Inbound)
    requires Count(s, u) >= MAX_MESSAGES
    ensures var o := Step(s, location, m.user, m.text, m.completion);
      && Count(o.store, u) >= MAX_MESSAGES
      && Transcript(o.store, u) == Transcript(s, u)
      && (o.email.Some? ==> o.email.value.user != u)
      && (m.user == u && Accepted(m.text) ==> o.replies == [QuotaReached])
  {
    if m.user == u {
      if Accepted(m.text) {
        QuotaPath(s, location, u, m.text, m.completion);
      }
    } else {
      OtherUsersUnchanged(s, location, m.user, m.text, m.completion, u);
    }
  }

  /** Once a user's count has reached the limit, that user is locked out for
      the rest of the run: the count stays at or above the limit, the
      transcript never changes and no email about the user is sent. */
  lemma {:induction false} LockedOut(s: Store, location: Option<string>, u: UserId, msgs: seq<Inbound>)
    requires Count(s, u) >= MAX_MESSAGES
    ensures var t := Run(s, location, msgs);
      && Count(t.store, u) >= MAX_MESSAGES
      && Transcript(t.store, u) == Transcript(s, u)
      && (forall e | e in t.emails :: e.user != u)
    decreases |msgs|
  {
    if msgs != [] {
      var m := msgs[0];
      var o := Step(s, location, m.user, m.text, m.completion);
      LockedOutStep(s, location, u, m);
      LockedOut(o.store, location, u, msgs[1..]);
      assert Run(s, location, msgs).emails == Sent(o.email) + Run(o.store, location, msgs[1..]).emails;
    }
  }

  /** ... and every accepted message from a locked-out user gets the quota
      reply. */
  lemma {:induction false} LockedOutReplies(s: Store, location: Option<string>, u: UserId, msgs: seq<Inbound>)
    requires Count(s, u) >= MAX_MESSAGES
    ensures var t := Run(s, location, msgs);
      forall i | 0 <= i < |msgs| && msgs[i].user == u && Accepted(msgs[i].text) :: t.replies[i] == [QuotaReached]
    decreases |msgs|
  {
    if msgs != [] {
      var m := msgs[0];
      var o := Step(s, location, m.user, m.text, m.completion);
      LockedOutStep(s, location, u, m);
      LockedOutReplies(o.store, location, u, msgs[1..]);
      var rest := Run(o.store, location, msgs[1..]);
      assert Run(s, location, msgs).replies == [o.replies] + rest.replies;
      forall i | 0 <= i < |msgs| && msgs[i].user == u && Accepted(msgs[i].text)
        ensures ([o.replies] + rest.replies)[i] == [QuotaReached]
      {
        if i > 0 {
          assert msgs[i] == msgs[1..][i - 1];
        }
      }
    }
  }

  /** A 25th message that is a location question, or whose model call
      fails, does not end the session: the count stays at the limit, so no
      email about the user is ever sent afterwards and every later accepted
      message from the user gets the quota reply. */
  lemma LimitWithoutAnswerLocksOut(s: Store, location: Option<string>, m: Inbound, later: seq<Inbound>)
    requires Accepted(m.text) && Count(s, m.user) + 1 == MAX_MESSAGES
    requires AsksLocation(m.text) || m.completion.Failure?
    ensures var t := Run(s, location, [m] + later);
      && Count(t.store, m.user) >= MAX_MESSAGES
      && (forall e | e in t.emails :: e.user != m.user)
      && (forall i | 0 <= i < |later| && later[i].user == m.user && Accepted(later[i].text) :: t.replies[i + 1] == [QuotaReached])
  {
    var o := Step(s, location, m.user, m.text, m.completion);
    assert ([m] + later)[0] == m;
    assert ([m] + later)[1..] == later;
    LockedOut(o.store, location, m.user, later);
    LockedOutReplies(o.store, location, m.user, later);
  }

  /** A message that the model answers within a session. */
  predicate Answerable(m: Inbound, u: UserId) {
    m.user == u && Accepted(m.text) && !AsksLocation(m.text) && m.completion.Answer?
  }

  /** The transcript lines a model turn adds: the user line, then the bot
      line when the model answered. */
  function Exchange(m: Inbound): seq<string> {
    match m.completion
    case Answer(content) => [UserLine(m.text), BotLine(BotReply(content))]
    case Failure(_) => [UserLine(m.text)]
  }

  /** The transcript lines a sequence of model turns adds. */
  function Exchanges(msgs: seq<Inbound>): seq<string>
    decreases |msgs|
  {
    if msgs == [] then [] else Exchange(msgs[0]) + Exchanges(msgs[1..])
  }

  /** Each answered message adds one user line and one bot line. */
  lemma {:induction false} ExchangesLength(msgs: seq<Inbound>, u: UserId)
    requires forall i | 0 <= i < |msgs| :: Answerable(msgs[i], u)
    ensures |Exchanges(msgs)| == 2 * |msgs|
    decreases |msgs|
  {
    if msgs != [] {
      assert Answerable(msgs[0], u);
      forall i | 0 <= i < |msgs[1..]| ensures Answerable(msgs[1..][i], u) {
        assert msgs[1..][i] == msgs[i + 1];
      }
      ExchangesLength(msgs[1..], u);
    }
  }

  /** Every model turn adds exactly one user line. */
  lemma {:induction false} ExchangesTurns(msgs: seq<Inbound>)
    ensures UserTurns(Exchanges(msgs)) == |msgs|
    decreases |msgs|
  {
    if msgs != [] {
      var m := msgs[0];
      var none: seq<string> := [];
      var ul := UserLine(m.text);
      assert ul[..|USER_MARK|] == USER_MARK;
      assert [ul][..0] == none;
      assert UserTurns([ul]) == 1;
      match m.completion {
        case Answer(content) =>
          var bl := BotLine(BotReply(content));
          assert bl[..|USER_MARK|][0] == BOT_MARK[0] != USER_MARK[0];
          assert [ul, bl][..1] == [ul];
          assert UserTurns(Exchange(m)) == 1;
        case Failure(_) =>
      }
      ExchangesTurns(msgs[1..]);
      UserTurnsAppend(Exchange(m), Exchanges(msgs[1..]));
    }
  }

  /** One answered message below the limit: the count of `u` goes up by
      one, the exchange is appended to the transcript of `u`, the answer is
      sent, nothing is exported and the other users' entries are as they were. */
  lemma SessionStep(s: Store, location: Option<string>, u: UserId, m: Inbound)
    requires Answerable(m, u) && Count(s, u) + 1 < MAX_MESSAGES
    ensures var o := Step(s, location, u, m.text, m.completion);
      && Count(o.store, u) == Count(s, u) + 1
      && Transcript(o.store, u) == Transcript(s, u) + Exchange(m)
      && o.store.counts - {u} == s.counts - {u}
      && o.store.convs - {u} == s.convs - {u}
      && o.replies == [Answered(BotReply(m.completion.content))]
      && o.email == None
  {
    var content := m.completion.content;
    AnsweredPath(s, location, u, m.text, content);
    RemoveUpdated(s.counts, u, Count(s, u) + 1);
    RemoveUpdated(s.convs, u, Transcript(s, u) + Exchange(m));
  }

  /** `msgs` are answered messages from `u` that bring the count of `u`
      exactly to the limit. */
  predicate EndsSession(s: Store, u: UserId, msgs: seq<Inbound>) {
    && |msgs| >= 1 && Count(s, u) + |msgs| == MAX_MESSAGES
    && forall i | 0 <= i < |msgs| :: Answerable(msgs[i], u)
  }

  /** What is left of a session after its first message. */
  lemma EndsSessionTail(s: Store, location: Option<string>, u: UserId, msgs: seq<Inbound>)
    requires EndsSession(s, u, msgs) && |msgs| > 1
    ensures Answerable(msgs[0], u)
    ensures EndsSession(Step(s, location, u, msgs[0].text, msgs[0].completion).store, u, msgs[1..])
  {
    assert Answerable(msgs[0], u);
    SessionStep(s, location, u, msgs[0]);
    forall i | 0 <= i < |msgs[1..]| ensures Answerable(msgs[1..][i], u) {
      assert msgs[1..][i] == msgs[i + 1];
    }
  }

  /** The messages that end a session remove both entries of `u` and leave
      the other users' entries as they were. */
  lemma {:induction false} SessionClears(s: Store, location: Option<string>, u: UserId, msgs: seq<Inbound>)
    requires EndsSession(s, u, msgs)
    ensures Run(s, location, msgs).store == Store(s.counts - {u}, s.convs - {u})
    decreases |msgs|
  {
    var m := msgs[0];
    assert Answerable(m, u);
    var o := Step(s, location, u, m.text, m.completion);
    assert Run(s, location, msgs).store == Run(o.store, location, msgs[1..]).store;
    if |msgs| == 1 {
      ExportPath(s, location, u, m.text, m.completion.content);
    } else {
      SessionStep(s, location, u, m);
      EndsSessionTail(s, location, u, msgs);
      SessionClears(o.store, location, u, msgs[1..]);
    }
  }

  /** The messages that end a session send exactly one email: the one about
      `u` holding the earlier transcript followed by every exchange. */
  lemma {:induction false} SessionSendsTranscript(s: Store, location: Option<string>, u: UserId, msgs: seq<Inbound>)
    requires EndsSession(s, u, msgs)
    ensures Run(s, location, msgs).emails == [Email(u, EmailBody(Transcript(s, u) + Exchanges(msgs)))]
    decreases |msgs|
  {
    var m := msgs[0];
    assert Answerable(m, u);
    var o := Step(s, location, u, m.text, m.completion);
    var rest := Run(o.store, location, msgs[1..]);
    assert Run(s, location, msgs).emails == Sent(o.email) + rest.emails;
    assert Exchanges(msgs) == Exchange(m) + Exchanges(msgs[1..]);
    if |msgs| == 1 {
      ExportPath(s, location, u, m.text, m.completion.content);
      assert Exchanges(msgs) == [UserLine(m.text), BotLine(BotReply(m.completion.content))];
    } else {
      SessionStep(s, location, u, m);
      EndsSessionTail(s, location, u, msgs);
      SessionSendsTranscript(o.store, location, u, msgs[1..]);
      AppendAssociates(Transcript(s, u), Exchange(m), Exchanges(msgs[1..]));
    }
  }

  /** The reply to a message that reached the model: its answer, or the
      notice carrying the error text. */
  function ModelReply(m: Inbound): Reply {
    match m.completion
    case Answer(content) => Answered(BotReply(content))
    case Failure(detail) => ErrorNotice(detail)
  }

  /** The replies within a session: each message gets the model's reply, and
      the last one is followed by the closing message. */
  function SessionReplyList(msgs: seq<Inbound>): (r: seq<seq<Reply>>)
    ensures |r| == |msgs|
    decreases |msgs|
  {
    if msgs == [] then []
    else if |msgs| == 1 then [[ModelReply(msgs[0]), Closing]]
    else [[ModelReply(msgs[0])]] + SessionReplyList(msgs[1..])
  }

  /** Within a session each message gets the model's answer; the message
      that ends it also gets the closing message. */
  lemma {:induction false} SessionReplies(s: Store, location: Option<string>, u: UserId, msgs: seq<Inbound>)
    requires EndsSession(s, u, msgs)
    ensures Run(s, location, msgs).replies == SessionReplyList(msgs)
    decreases |msgs|
  {
    var m := msgs[0];
    assert Answerable(m, u);
    var o := Step(s, location, u, m.text, m.completion);
    var rest := Run(o.store, location, msgs[1..]);
    assert Run(s, location, msgs).replies == [o.replies] + rest.replies;
    if |msgs| == 1 {
      ExportPath(s, location, u, m.text, m.completion.content);
    } else {
      SessionStep(s, location, u, m);
      EndsSessionTail(s, location, u, msgs);
      SessionReplies(o.store, location, u, msgs[1..]);
    }
  }

  lemma AppendAssociates(a: seq<string>, b: seq<string>, c: seq<string>)
    ensures (a + b) + c == a + (b + c)
  {
  }

  /** A whole session from a fresh process: 25 answered messages from one
      user send one email whose body is the 50 transcript lines separated by
      blank lines, and leave the maps empty again, so the user's next
      message is handled exactly as the first one was. */
  lemma FullSessionExports(location: Option<string>, u: UserId, msgs: seq<Inbound>)
    requires |msgs| == MAX_MESSAGES
    requires forall i | 0 <= i < |msgs| :: Answerable(msgs[i], u)
    ensures var t := Run(EMPTY_STORE, location, msgs);
      && t.emails == [Email(u, EmailBody(Exchanges(msgs)))]
      && |Exchanges(msgs)| == 2 * MAX_MESSAGES
      && UserTurns(Exchanges(msgs)) == MAX_MESSAGES
      && t.store == EMPTY_STORE
  {
    SessionClears(EMPTY_STORE, location, u, msgs);
    SessionSendsTranscript(EMPTY_STORE, location, u, msgs);
    assert Transcript(EMPTY_STORE, u) + Exchanges(msgs) == Exchanges(msgs);
    assert EMPTY_STORE.counts - {u} == EMPTY_STORE.counts;
    assert EMPTY_STORE.convs - {u} == EMPTY_STORE.convs;
    ExchangesLength(msgs, u);
    ExchangesTurns(msgs);
  }

  /** The messages of `u`, in order. */
  function ForUser(msgs: seq<Inbound>, u: UserId): (r: seq<Inbound>)
    ensures |r| <= |msgs|
    decreases |msgs|
  {
    if msgs == [] then []
    else (if msgs[0].user == u then [msgs[0]] else []) + ForUser(msgs[1..], u)
  }

  /** The replies to the messages of `u`, in order. */
  function RepliesFor(msgs: seq<Inbound>, replies: seq<seq<Reply>>, u: UserId): seq<seq<Reply>>
    requires |replies| == |msgs|
    decreases |msgs|
  {
    if msgs == [] then []
    else (if msgs[0].user == u then [replies[0]] else []) + RepliesFor(msgs[1..], replies[1..], u)
  }

  /** The emails about `u`, in order. */
  function EmailsFor(emails: seq<Email>, u: UserId): seq<Email>
    decreases |emails|
  {
    if emails == [] then []
    else (if emails[0].user == u then [emails[0]] else []) + EmailsFor(emails[1..], u)
  }

  lemma {:induction false} EmailsForAppend(a: seq<Email>, b: seq<Email>, u: UserId)
    ensures EmailsFor(a + b, u) == EmailsFor(a, u) + EmailsFor(b, u)
    decreases |a|
  {
    if a == [] {
      assert a + b == b;
    } else {
      var head := if a[0].user == u then [a[0]] else [];
      assert (a + b)[0] == a[0];
      assert (a + b)[1..] == a[1..] + b;
      calc {
        EmailsFor(a + b, u);
        head + EmailsFor(a[1..] + b, u);
        { EmailsForAppend(a[1..], b, u); }
        head + (EmailsFor(a[1..], u) + EmailsFor(b, u));
        (head + EmailsFor(a[1..], u)) + EmailsFor(b, u);
      }
    }
  }

  /** What one step does for its user depends only on that user's count and
      transcript. */
  lemma StepIsLocal(s: Store, s': Store, location: Option<string>, user: UserId, text: string, completion: Completion)
    requires Count(s, user) == Count(s', user) && Transcript(s, user) == Transcript(s', user)
    ensures var o := Step(s, location, user, text, completion);
      var o' := Step(s', location, user, text, completion);
      && o.replies == o'.replies && o.email == o'.email
      && Count(o.store, user) == Count(o'.store, user)
      && Transcript(o.store, user) == Transcript(o'.store, user)
  {
  }

  /** The run of the messages of `u` from `s'`, when the first message is
      from `u`: the step for it, then the run of the remaining messages of `u`. */
  lemma RunForUserCons(s': Store, location: Option<string>, msgs: seq<Inbound>, u: UserId)
    requires msgs != [] && msgs[0].user == u
    ensures var m := msgs[0];
      var o' := Step(s', location, u, m.text, m.completion);
      var rest' := Run(o'.store, location, ForUser(msgs[1..], u));
      Run(s', location, ForUser(msgs, u)) == Trace(rest'.store, [o'.replies] + rest'.replies, Sent(o'.email) + rest'.emails)
  {
    var m := msgs[0];
    assert ForUser(msgs, u) == [m] + ForUser(msgs[1..], u);
    assert ([m] + ForUser(msgs[1..], u))[0] == m;
    assert ([m] + ForUser(msgs[1..], u))[1..] == ForUser(msgs[1..], u);
  }

  /** The final count and transcript of `u` depend only on the messages of `u`. */
  lemma {:induction false} IsolatedState(s: Store, s': Store, location: Option<string>, msgs: seq<Inbound>, u: UserId)
    requires Count(s, u) == Count(s', u) && Transcript(s, u) == Transcript(s', u)
    ensures var t := Run(s, location, msgs);
      var t' := Run(s', location, ForUser(msgs, u));
      Count(t.store, u) == Count(t'.store, u) && Transcript(t.store, u) == Transcript(t'.store, u)
    decreases |msgs|
  {
    if msgs != [] {
      var m := msgs[0];
      var o := Step(s, location, m.user, m.text, m.completion);
      if m.user == u {
        var o' := Step(s', location, u, m.text, m.completion);
        StepIsLocal(s, s', location, u, m.text, m.completion);
        RunForUserCons(s', location, msgs, u);
        IsolatedState(o.store, o'.store, location, msgs[1..], u);
      } else {
        OtherUsersUnchanged(s, location, m.user, m.text, m.completion, u);
        assert ForUser(msgs, u) == ForUser(msgs[1..], u);
        IsolatedState(o.store, s', location, msgs[1..], u);
      }
    }
  }

  /** The replies to the messages of `u` depend only on the messages of `u`. */
  lemma {:induction false} IsolatedReplies(s: Store, s': Store, location: Option<string>, msgs: seq<Inbound>, u: UserId)
    requires Count(s, u) == Count(s', u) && Transcript(s, u) == Transcript(s', u)
    ensures RepliesFor(msgs, Run(s, location, msgs).replies, u) == Run(s', location, ForUser(msgs, u)).replies
    decreases |msgs|
  {
    if msgs != [] {
      var m := msgs[0];
      var o := Step(s, location, m.user, m.text, m.completion);
      var rest := Run(o.store, location, msgs[1..]);
      var t := Run(s, location, msgs);
      assert t.replies[0] == o.replies;
      assert t.replies[1..] == rest.replies;
      if m.user == u {
        var o' := Step(s', location, u, m.text, m.completion);
        StepIsLocal(s, s', location, u, m.text, m.completion);
        RunForUserCons(s', location, msgs, u);
        IsolatedReplies(o.store, o'.store, location, msgs[1..], u);
      } else {
        OtherUsersUnchanged(s, location, m.user, m.text, m.completion, u);
        assert ForUser(msgs, u) == ForUser(msgs[1..], u);
        IsolatedReplies(o.store, s', location, msgs[1..], u);
      }
    }
  }

  /** The emails about `u` depend only on the messages of `u`. */
  lemma {:induction false} IsolatedEmails(s: Store, s': Store, location: Option<string>, msgs: seq<Inbound>, u: UserId)
    requires Count(s, u) == Count(s', u) && Transcript(s, u) == Transcript(s', u)
    ensures EmailsFor(Run(s, location, msgs).emails, u) == Run(s', location, ForUser(msgs, u)).emails
    decreases |msgs|
  {
    if msgs != [] {
      var m := msgs[0];
      var o := Step(s, location, m.user, m.text, m.completion);
      var rest := Run(o.store, location, msgs[1..]);
      assert Run(s, location, msgs).emails == Sent(o.email) + rest.emails;
      EmailsForAppend(Sent(o.email), rest.emails, u);
      if m.user == u {
        var o' := Step(s', location, u, m.text, m.completion);
        StepIsLocal(s, s', location, u, m.text, m.completion);
        RunForUserCons(s', location, msgs, u);
        IsolatedEmails(o.store, o'.store, location, msgs[1..], u);
        assert EmailsFor(Sent(o.email), u) == Sent(o'.email);
      } else {
        OtherUsersUnchanged(s, location, m.user, m.text, m.completion, u);
        assert ForUser(msgs, u) == ForUser(msgs[1..], u);
        IsolatedEmails(o.store, s', location, msgs[1..], u);
        assert EmailsFor(Sent(o.email), u) == [];
        assert EmailsFor(Sent(o.email), u) + EmailsFor(rest.emails, u) == EmailsFor(rest.emails, u);
      }
    }
  }

  /** Users do not affect each other: what a user sees in a run (the replies
      to that user's messages, the emails about that user, and that user's
      final count and transcript) is what the same user would see if only
      that user's messages had arrived, from any maps that agree on that
      user. */
  lemma RunIsolation(s: Store, s': Store, location: Option<string>, msgs: seq<Inbound>, u: UserId)
    requires Count(s, u) == Count(s', u) && Transcript(s, u) == Transcript(s', u)
    ensures var t := Run(s, location, msgs);
      var t' := Run(s', location, ForUser(msgs, u));
      && RepliesFor(msgs, t.replies, u) == t'.replies
      && EmailsFor(t.emails, u) == t'.emails
      && Count(t.store, u) == Count(t'.store, u)
      && Transcript(t.store, u) == Transcript(t'.store, u)
  {
    IsolatedState(s, s', location, msgs, u);
    IsolatedReplies(s, s', location, msgs, u);
    IsolatedEmails(s, s', location, msgs, u);
  }
}
