/** Which findings are answered exactly once, however the attempts before the
    completed one stopped. */
module LandReplyAnswered {
  import opened Text
  import opened LandReply
  import opened LandReplyOnce

  // ---- one completed step --------------------------------------------------

  /** A step that begins on this board has something to post for finding `k`. */
  ghost predicate Open(s: Landing, b: Board, k: nat)
    requires k < |s.findings|
  {
    var f := s.findings[k];
    Posts(f, b.threads, s.sha) || (Match(f, b.threads) == |b.threads| && !CommentNoted(s, b))
  }

  lemma {:induction false} HandleAnswers(s: Landing, seen: seq<Thread>, b: Board, n: nat, k: nat)
    requires n < |s.findings| && |seen| == |b.threads|
    ensures Handle(s, seen, b, n).comments == b.comments
    ensures Answers(Handle(s, seen, b, n).log, k) ==
            Answers(b.log, k) + if k == n && Posts(s.findings[n], seen, s.sha) then 1 else 0
  {
    AnswersOneMore(b.log, Reply(n), k);
  }

  lemma {:induction false} PrefixAnswers(s: Landing, b: Board, n: nat, k: nat, b': Board)
    requires k < |s.findings| && n <= |s.findings| && b' == Prefix(s, b, n)
    ensures b'.comments == b.comments
    ensures Answers(b'.log, k) ==
            Answers(b.log, k) + if k < n && Posts(s.findings[k], b.threads, s.sha) then 1 else 0
  {
    if n > 0 {
      var before := Prefix(s, b, n - 1);
      PrefixAnswers(s, b, n - 1, k, before);
      HandleAnswers(s, b.threads, before, n - 1, k);
    }
  }

  /** A completed step adds one answer for what was open and none else. */
  lemma {:induction false} CompletedAnswers(s: Landing, b: Board, k: nat)
    requires k < |s.findings|
    ensures Answers(Attempt(s, b, |s.findings| + 1).log, k) == Answers(b.log, k) + if Open(s, b, k) then 1 else 0
  {
    var n := |s.findings|;
    var b', ks := Prefix(s, b, n), Unthreaded(s, b.threads, n);
    PrefixAnswers(s, b, n, k, b');
    UnthreadedAre(s, b.threads, n, k);
    AnswersOneMore(b'.log, Summary(ks), k);
    assert CommentNoted(s, b') == CommentNoted(s, b);
  }

  /** However the earlier attempts stopped, after a completed step a finding has
      exactly one answer, if and only if it had one or was open when the step
      began. */
  lemma {:induction false} ExactlyOnceExactly(s: Landing, b: Board, ns: seq<nat>, k: nat)
    requires Signed(s) && b.log == [] && Stops(s, ns) && k < |s.findings|
    requires !Unseen(s.findings[k], b.threads, s.sha)
    ensures var begun := Attempts(s, b, ns);
            Answers(Attempt(s, begun, |s.findings| + 1).log, k) == 1 <==>
            Answers(begun.log, k) == 1 || Open(s, begun, k)
  {
    var begun := Attempts(s, b, ns);
    AttemptsKeep(s, b, ns);
    assert Once(s, b.threads, begun, k);
    CompletedAnswers(s, begun, k);
    AttemptKeeps(s, b.threads, begun, |s.findings| + 1);
    assert Once(s, b.threads, Attempt(s, begun, |s.findings| + 1), k);
  }

  lemma {:induction false} PrefixExtends(s: Landing, b: Board, n: nat, b': Board)
    requires Signed(s) && n <= |s.findings| && b' == Prefix(s, b, n)
    ensures Extends(s.sha, b.threads, b'.threads)
  {
    if n > 0 {
      var before := Prefix(s, b, n - 1);
      PrefixExtends(s, b, n - 1, before);
      HandleExtends(s, b, before, n - 1);
    }
  }

  /** A finding whose thread shows somebody's note before it is answered never is. */
  lemma {:induction false} PassedOverForEver(s: Landing, orig: seq<Thread>, b: Board, ns: seq<nat>, k: nat)
    requires Signed(s) && Stops(s, ns) && Inv(s, orig, b) && k < |s.findings|
    requires Answers(b.log, k) == 0 && Match(s.findings[k], b.threads) < |b.threads|
    requires Settled(s.sha, s.findings[k], b.threads)
    ensures var b' := Attempts(s, b, ns);
            && Inv(s, orig, b') && Answers(b'.log, k) == 0
            && Match(s.findings[k], b'.threads) < |b'.threads| && Settled(s.sha, s.findings[k], b'.threads)
  {
    if ns != [] {
      var front, n := ns[..|ns| - 1], ns[|ns| - 1];
      PassedOverForEver(s, orig, b, front, k);
      var b1 := Attempts(s, b, front);
      AttemptKeeps(s, orig, b1, n);
      var m := if n <= |s.findings| then n else |s.findings|;
      PrefixExtends(s, b1, m, Prefix(s, b1, m));
      MatchMovesToNoted(s.sha, s.findings[k], b1.threads, Attempt(s, b1, n).threads);
      if n <= |s.findings| {
        PrefixAnswers(s, b1, n, k, Prefix(s, b1, n));
      } else {
        CompletedAnswers(s, b1, k);
      }
    }
  }

  // ---- rivals --------------------------------------------------------------

  /** Seen in a thread, the note makes the thread one that matches `f`. */
  predicate Draws(note: Comment, f: Finding) {
    f.threadId == "" && if f.commentId.Some? then note.databaseId == f.commentId else Contains(note.body, f.id)
  }

  /** The reply to `j` takes away finding `k`'s own: it is posted in the same
      thread, or quotes `k` in one that is looked at earlier. For a finding with a
      thread it has to come first; the comment comes after all replies. */
  ghost predicate Rival(s: Landing, threads: seq<Thread>, j: nat, k: nat)
    requires j < |s.findings| && k < |s.findings|
  {
    var f, g := s.findings[j], s.findings[k];
    var m, mine := Match(f, threads), Match(g, threads);
    && Posts(f, threads, s.sha) && |threads[m].comments| < THREADS_PAGE
    && (mine < |threads| ==> j < k)
    && (m == mine || (m < mine && Draws(s.reply(f), g)))
  }

  ghost predicate Unrivalled(s: Landing, threads: seq<Thread>, k: nat)
    requires k < |s.findings|
  {
    forall j :: 0 <= j < |s.findings| ==> !Rival(s, threads, j, k)
  }

  /** Exactly one answer, after any stops and a completed step. */
  ghost predicate AlwaysAnswered(s: Landing, b: Board, k: nat)
    requires k < |s.findings|
  {
    forall ns :: Stops(s, ns) ==> Answers(Attempt(s, Attempts(s, b, ns), |s.findings| + 1).log, k) == 1
  }

  // ---- without a rival nothing comes between -------------------------------

  /** Finding `k` finds the threads as it did at the start. */
  ghost predicate Undisturbed(threads: seq<Thread>, now: seq<Thread>, g: Finding) {
    var mine := Match(g, threads);
    && |now| == |threads| && (mine < |threads| ==> now[mine] == threads[mine])
    && forall i :: 0 <= i < mine ==> !Matches(g, now[i])
  }

  /** A note changes what a thread matches only if it is seen and draws. */
  lemma {:induction false} NoteMatches(t: Thread, note: Comment, g: Finding)
    requires !Matches(g, t) && (|t.comments| >= THREADS_PAGE || !Draws(note, g))
    ensures !Matches(g, t.(comments := t.comments + [note]))
  {
    var t' := t.(comments := t.comments + [note]);
    forall c | c in Visible(t') ensures c in Visible(t) || (c == note && |t.comments| < THREADS_PAGE) {
    }
  }

  /** Whatever was posted since, a reply is made where it would have been made at
      the start. */
  lemma {:induction false} PostsWhereItDid(sha: string, f: Finding, threads: seq<Thread>, now: seq<Thread>)
    requires Extends(sha, threads, now) && Posts(f, now, sha)
    ensures Posts(f, threads, sha) && Match(f, threads) == Match(f, now)
  {
    MatchMovesToNoted(sha, f, threads, now);
    var m := Match(f, now);
    GainedVisible(sha, threads[m], now[m]);
  }

  lemma {:induction false} ReplyDisturbsNot(s: Landing, threads: seq<Thread>, now: seq<Thread>, j: nat, k: nat)
    requires j < |s.findings| && k < |s.findings| && Extends(s.sha, threads, now)
    requires !Rival(s, threads, j, k) && !Unseen(s.findings[k], threads, s.sha)
    requires Undisturbed(threads, now, s.findings[k])
    requires Posts(s.findings[j], threads, s.sha) && (Match(s.findings[k], threads) < |threads| ==> j < k)
    requires Match(s.findings[k], threads) < |threads| ==> Posts(s.findings[k], threads, s.sha)
    ensures Undisturbed(threads, Append(now, Match(s.findings[j], threads), s.reply(s.findings[j])), s.findings[k])
  {
    var f, g := s.findings[j], s.findings[k];
    var m := Match(f, threads);
    assert Gained(s.sha, threads[m], now[m]);
    if m < Match(g, threads) {
      NoteMatches(now[m], s.reply(f), g);
    }
  }

  /** Finding `k` has a place of its own, and no other finding takes it. */
  ghost predicate Safe(s: Landing, threads: seq<Thread>, k: nat)
    requires k < |s.findings|
  {
    && Unrivalled(s, threads, k) && !Unseen(s.findings[k], threads, s.sha)
    && (Match(s.findings[k], threads) < |threads| ==> Posts(s.findings[k], threads, s.sha))
  }

  lemma {:induction false} HandleDisturbsNot(s: Landing, threads: seq<Thread>, seen: seq<Thread>, b: Board, n: nat,
                                             k: nat)
    requires Signed(s) && n < |s.findings| && k < |s.findings| && Safe(s, threads, k)
    requires Extends(s.sha, threads, seen) && Extends(s.sha, seen, b.threads)
    requires Undisturbed(threads, b.threads, s.findings[k]) && (Match(s.findings[k], threads) < |threads| ==> n < k)
    ensures Undisturbed(threads, Handle(s, seen, b, n).threads, s.findings[k])
  {
    if Posts(s.findings[n], seen, s.sha) {
      PostsWhereItDid(s.sha, s.findings[n], threads, seen);
      ReplyDisturbsNot(s, threads, b.threads, n, k);
    }
  }

  /** An attempt that begins with `k` undisturbed and has not come to it leaves it
      so. */
  lemma {:induction false} PrefixDisturbsNot(s: Landing, threads: seq<Thread>, b: Board, n: nat, k: nat, b': Board)
    requires Signed(s) && n <= |s.findings| && k < |s.findings| && Safe(s, threads, k)
    requires Extends(s.sha, threads, b.threads) && Undisturbed(threads, b.threads, s.findings[k])
    requires (Match(s.findings[k], threads) < |threads| ==> n <= k) && b' == Prefix(s, b, n)
    ensures Undisturbed(threads, b'.threads, s.findings[k])
  {
    if n > 0 {
      var before := Prefix(s, b, n - 1);
      PrefixDisturbsNot(s, threads, b, n - 1, k, before);
      PrefixExtends(s, b, n - 1, before);
      HandleDisturbsNot(s, threads, b.threads, before, n - 1, k);
    }
  }

  /** Not answered yet, and nothing has come between. */
  ghost predicate Waits(s: Landing, threads: seq<Thread>, b: Board, k: nat)
    requires k < |s.findings|
  {
    && Answers(b.log, k) == 0 && Undisturbed(threads, b.threads, s.findings[k])
    && (Match(s.findings[k], threads) == |threads| ==> !CommentNoted(s, b))
  }

  lemma {:induction false} WaitingIsOpen(s: Landing, threads: seq<Thread>, b: Board, k: nat)
    requires k < |s.findings| && Waits(s, threads, b, k) && Safe(s, threads, k)
    ensures Open(s, b, k)
  {
  }

  lemma {:induction false} AttemptAnswersOrWaits(s: Landing, threads: seq<Thread>, b: Board, n: nat, k: nat)
    requires Signed(s) && n <= |s.findings| + 1 && k < |s.findings| && Inv(s, threads, b)
    requires Safe(s, threads, k) && Waits(s, threads, b, k)
    ensures Answers(Attempt(s, b, n).log, k) == 1 || Waits(s, threads, Attempt(s, b, n), k)
  {
    WaitingIsOpen(s, threads, b, k);
    if n > |s.findings| {
      CompletedAnswers(s, b, k);
    } else {
      PrefixAnswers(s, b, n, k, Prefix(s, b, n));
      if Match(s.findings[k], threads) == |threads| || n <= k {
        PrefixDisturbsNot(s, threads, b, n, k, Prefix(s, b, n));
      }
    }
  }

  lemma {:induction false} AnswersStay(s: Landing, b: Board, n: nat, k: nat)
    requires n <= |s.findings| + 1 && k < |s.findings|
    ensures Answers(Attempt(s, b, n).log, k) >= Answers(b.log, k)
  {
    if n > |s.findings| {
      CompletedAnswers(s, b, k);
    } else {
      PrefixAnswers(s, b, n, k, Prefix(s, b, n));
    }
  }

  lemma {:induction false} AttemptsAnswerOrWait(s: Landing, b: Board, ns: seq<nat>, k: nat)
    requires Signed(s) && b.log == [] && Stops(s, ns) && k < |s.findings| && Open(s, b, k)
    requires Unrivalled(s, b.threads, k) && !Unseen(s.findings[k], b.threads, s.sha)
    ensures Answers(Attempts(s, b, ns).log, k) == 1 || Waits(s, b.threads, Attempts(s, b, ns), k)
  {
    if ns != [] {
      var front, n := ns[..|ns| - 1], ns[|ns| - 1];
      AttemptsAnswerOrWait(s, b, front, k);
      AttemptsKeep(s, b, front);
      AttemptsKeep(s, b, ns);
      var b1 := Attempts(s, b, front);
      if Answers(b1.log, k) == 1 {
        AnswersStay(s, b1, n, k);
        assert Once(s, b.threads, Attempts(s, b, ns), k);
      } else {
        AttemptAnswersOrWaits(s, b.threads, b1, n, k);
      }
    }
  }

  lemma {:induction false} UnrivalledIsAnswered(s: Landing, b: Board, k: nat)
    requires Signed(s) && b.log == [] && k < |s.findings| && !Unseen(s.findings[k], b.threads, s.sha)
    requires Open(s, b, k) && Unrivalled(s, b.threads, k)
    ensures AlwaysAnswered(s, b, k)
  {
    forall ns | Stops(s, ns) ensures Answers(Attempt(s, Attempts(s, b, ns), |s.findings| + 1).log, k) == 1 {
      AttemptsAnswerOrWait(s, b, ns, k);
      ExactlyOnceExactly(s, b, ns, k);
      if Waits(s, b.threads, Attempts(s, b, ns), k) {
        WaitingIsOpen(s, b.threads, Attempts(s, b, ns), k);
      }
    }
  }

  // ---- a stop behind a rival -----------------------------------------------

  /** In the first attempt the reply to `j` is among the comments that are seen. */
  ghost predicate Shows(s: Landing, b: Board, j: nat)
    requires j < |s.findings|
  {
    var m := Match(s.findings[j], b.threads);
    m < |b.threads| && |Prefix(s, b, j).threads[m].comments| < THREADS_PAGE
  }

  /** A reply is made, so its thread, if short at the start, shows a note. */
  lemma {:induction false} ReplyIsNoted(s: Landing, b: Board, j: nat)
    requires Signed(s) && j < |s.findings| && Posts(s.findings[j], b.threads, s.sha)
    requires |b.threads[Match(s.findings[j], b.threads)].comments| < THREADS_PAGE
    ensures Noted(Prefix(s, b, j + 1).threads[Match(s.findings[j], b.threads)], s.sha)
  {
    var m := Match(s.findings[j], b.threads);
    PrefixExtends(s, b, j, Prefix(s, b, j));
    PrefixExtends(s, b, j + 1, Prefix(s, b, j + 1));
    GainedVisible(s.sha, b.threads[m], Prefix(s, b, j + 1).threads[m]);
  }

  /** A thread that shows a note, is the finding's own or an earlier one that
      matches it, settles it. */
  lemma {:induction false} DrawnToNoted(sha: string, g: Finding, threads: seq<Thread>, now: seq<Thread>, m: nat)
    requires Extends(sha, threads, now) && m < |now| && Noted(now[m], sha)
    requires m == Match(g, threads) || (m < Match(g, threads) && Matches(g, now[m]))
    ensures Match(g, now) < |now| && Settled(sha, g, now)
  {
    MatchMovesToNoted(sha, g, threads, now);
  }

  /** The rival's thread shows its note, and is one that `k` is drawn to. */
  ghost predicate Takes(s: Landing, threads: seq<Thread>, now: seq<Thread>, j: nat, k: nat)
    requires j < |s.findings| && k < |s.findings|
  {
    var m, mine := Match(s.findings[j], threads), Match(s.findings[k], threads);
    && m < |now| && Noted(now[m], s.sha) && (m == mine || (m < mine && Matches(s.findings[k], now[m])))
  }

  lemma {:induction false} RivalTakes(s: Landing, b: Board, j: nat, k: nat)
    requires Signed(s) && j < |s.findings| && k < |s.findings| && Rival(s, b.threads, j, k)
    requires Match(s.findings[j], b.threads) == Match(s.findings[k], b.threads) || Shows(s, b, j)
    ensures Takes(s, b.threads, Attempt(s, b, j + 1).threads, j, k)
  {
    ReplyIsNoted(s, b, j);
  }

  lemma {:induction false} RivalIsFirst(s: Landing, b: Board, j: nat, k: nat)
    requires b.log == [] && j < |s.findings| && k < |s.findings| && Rival(s, b.threads, j, k)
    ensures Answers(Attempt(s, b, j + 1).log, k) == 0
  {
    PrefixAnswers(s, b, j + 1, k, Prefix(s, b, j + 1));
  }

  lemma {:induction false} OneAttempt(s: Landing, b: Board, n: nat)
    requires n <= |s.findings| + 1
    ensures Stops(s, [n]) && Attempts(s, b, [n]) == Attempt(s, b, n)
  {
    assert [n][..0] == [];
  }

  lemma {:induction false} FirstKeeps(s: Landing, b: Board, n: nat)
    requires Signed(s) && b.log == [] && n <= |s.findings| + 1
    ensures Inv(s, b.threads, Attempt(s, b, n))
  {
    OneAttempt(s, b, n);
    AttemptsKeep(s, b, [n]);
  }

  lemma {:induction false} TakenIsPassedOver(s: Landing, orig: seq<Thread>, b: Board, ns: seq<nat>, j: nat, k: nat)
    requires Signed(s) && Stops(s, ns) && j < |s.findings| && k < |s.findings| && Inv(s, orig, b)
    requires Takes(s, orig, b.threads, j, k) && Answers(b.log, k) == 0
    ensures Answers(Attempts(s, b, ns).log, k) == 0
  {
    DrawnToNoted(s.sha, s.findings[k], orig, b.threads, Match(s.findings[j], orig));
    PassedOverForEver(s, orig, b, ns, k);
  }

  /** A stop behind a rival: no answer, in any number of further attempts. */
  lemma {:induction false} RivalledIsPassedOver(s: Landing, b: Board, ns: seq<nat>, j: nat, k: nat)
    requires Signed(s) && b.log == [] && Stops(s, ns) && j < |s.findings| && k < |s.findings|
    requires Rival(s, b.threads, j, k)
    requires Match(s.findings[j], b.threads) == Match(s.findings[k], b.threads) || Shows(s, b, j)
    ensures Answers(Attempts(s, Attempt(s, b, j + 1), ns).log, k) == 0
  {
    RivalTakes(s, b, j, k);
    RivalIsFirst(s, b, j, k);
    FirstKeeps(s, b, j + 1);
    TakenIsPassedOver(s, b.threads, Attempt(s, b, j + 1), ns, j, k);
  }

  lemma {:induction false} UnansweredAfter(s: Landing, b: Board, ns: seq<nat>, k: nat, b': Board)
    requires k < |s.findings| && Stops(s, ns) && b' == Attempts(s, b, ns)
    requires Stops(s, [|s.findings| + 1]) && Answers(Attempts(s, b', [|s.findings| + 1]).log, k) == 0
    ensures !AlwaysAnswered(s, b, k)
  {
    OneAttempt(s, b', |s.findings| + 1);
  }

  lemma {:induction false} RivalledIsUnanswered(s: Landing, b: Board, j: nat, k: nat)
    requires Signed(s) && b.log == [] && j < |s.findings| && k < |s.findings| && Rival(s, b.threads, j, k)
    requires Match(s.findings[j], b.threads) == Match(s.findings[k], b.threads) || Shows(s, b, j)
    ensures !AlwaysAnswered(s, b, k)
  {
    OneAttempt(s, b, j + 1);
    RivalledIsPassedOver(s, b, [|s.findings| + 1], j, k);
    UnansweredAfter(s, b, [j + 1], k, Attempt(s, b, j + 1));
  }

  /** A rival's reply that quotes `k` falls within the page. */
  ghost predicate RivalsShow(s: Landing, b: Board, k: nat)
    requires k < |s.findings|
  {
    forall j :: 0 <= j < |s.findings| && Rival(s, b.threads, j, k) ==>
      Match(s.findings[j], b.threads) == Match(s.findings[k], b.threads) || Shows(s, b, j)
  }

  /** Said of the pull request before the first attempt: a finding is answered
      exactly once after all stops and a completed step, if and only if the step
      has something to post for it and no other finding is its rival. */
  lemma {:induction false} AlwaysAnsweredExactly(s: Landing, b: Board, k: nat)
    requires Signed(s) && b.log == [] && k < |s.findings| && !Unseen(s.findings[k], b.threads, s.sha)
    requires RivalsShow(s, b, k)
    ensures AlwaysAnswered(s, b, k) <==> Open(s, b, k) && Unrivalled(s, b.threads, k)
  {
    if Open(s, b, k) && Unrivalled(s, b.threads, k) {
      UnrivalledIsAnswered(s, b, k);
    } else if !Open(s, b, k) {
      CompletedAnswers(s, b, k);
      assert Stops(s, []) && Attempts(s, b, []) == b;
    } else {
      var j :| 0 <= j < |s.findings| && Rival(s, b.threads, j, k);
      RivalledIsUnanswered(s, b, j, k);
    }
  }
}
