/** `reply_step` as it is written. */
module LandReplyStep {
  import opened LandReply

  class PullRequest {
    var threads: seq<Thread>
    var comments: seq<string>
    ghost var log: seq<Post>

    constructor (threads: seq<Thread>, comments: seq<string>)
      ensures View() == Board(threads, comments, [])
    {
      this.threads, this.comments, log := threads, comments, [];
    }

    ghost function View(): Board
      reads this
    {
      Board(threads, comments, log)
    }

    /** Each finding's thread, as the threads are now, and the findings with none. */
    method Plan(s: Landing) returns (plan: seq<nat>, unthreaded: seq<nat>)
      ensures |plan| == |s.findings|
      ensures forall k :: 0 <= k < |plan| ==> plan[k] == Match(s.findings[k], threads)
      ensures unthreaded == Unthreaded(s, threads, |s.findings|)
    {
      plan, unthreaded := [], [];
      for k := 0 to |s.findings|
        invariant |plan| == k && forall j :: 0 <= j < k ==> plan[j] == Match(s.findings[j], threads)
        invariant unthreaded == Unthreaded(s, threads, k)
      {
        var m := Match(s.findings[k], threads);
        plan := plan + [m];
        if m == |threads| {
          unthreaded := unthreaded + [k];
        }
      }
    }

    /** Reply where the thread, as it was read, shows no note and has a comment
        to reply to. */
    method ReplyTo(s: Landing, seen: seq<Thread>, k: nat, m: nat)
      requires k < |s.findings| && |seen| == |threads| && m == Match(s.findings[k], seen)
      modifies this`threads, this`log
      ensures View() == Handle(s, seen, old(View()), k)
    {
      if m < |seen| && !Noted(seen[m], s.sha) && Anchored(seen[m]) {
        threads := Append(threads, m, s.reply(s.findings[k]));
        log := log + [Reply(k)];
      }
    }

    method CommentOn(s: Landing, ghost seen: seq<Thread>, unthreaded: seq<nat>)
      requires unthreaded == Unthreaded(s, seen, |s.findings|)
      modifies this`comments, this`log
      ensures View() == Finish(s, seen, old(View()))
    {
      if unthreaded != [] && !(exists c :: c in comments && IsLandNote(c, s.sha)) {
        comments := comments + [s.summary(Pick(s.findings, unthreaded))];
        log := log + [Summary(unthreaded)];
      }
    }

    /** Deal with the findings in order, up to a call that fails. */
    method ReplyAll(s: Landing, plan: seq<nat>, stop: nat)
      requires |plan| == |s.findings| && forall k :: 0 <= k < |plan| ==> plan[k] == Match(s.findings[k], threads)
      modifies this`threads, this`log
      ensures View() == Prefix(s, old(View()), if stop < |s.findings| then stop else |s.findings|)
    {
      var seen := threads;
      ghost var b := View();
      for k := 0 to |s.findings|
        invariant k <= stop && |threads| == |seen| && View() == Prefix(s, b, k)
      {
        if k == stop {
          return;
        }
        ReplyTo(s, seen, k, plan[k]);
      }
    }

    /** One attempt, which stops after `stop` findings, the comment counting as one
        more: it is `Attempt` up to there, and completes if nothing stops it. */
    method ReplyStep(s: Landing, stop: nat) returns (completed: bool)
      modifies this`threads, this`comments, this`log
      ensures completed <==> stop > |s.findings|
      ensures View() == Attempt(s, old(View()), if completed then |s.findings| + 1 else stop)
    {
      var plan, unthreaded := Plan(s);
      ReplyAll(s, plan, stop);
      completed := stop > |s.findings|;
      if completed {
        CommentOn(s, old(threads), unthreaded);
      }
    }
  }
}
