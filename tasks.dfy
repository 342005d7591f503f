/**
 * `Tapper.processing_tasks` and the link handling of `join_tg_channel`.
 *
 * The pass over the task list is recorded as the sequence of observable
 * steps it takes: joining a channel, posting `/tasks/claim` for a task id,
 * and the randomised 5-10 s pause after each task that was not skipped.
 * What the backend answers to a verification only changes the log line, so
 * it is not an input here.
 */
module Tasks {
  import opened Wrappers
  import opened Text

  /**
   * One entry of `/tasks/list`. `transactionId` and `channelId` are `None`
   * for JSON `null`; `kind` is the `type` field.
   */
  datatype Task = Task(
    id: string,
    title: string,
    kind: string,
    hidden: bool,
    transactionId: Option<string>,
    channelId: Option<string>,
    link: string,
    amount: int)

  /** An observable step of the pass. */
  datatype Step =
    | Join(peer: string)   // `join_tg_channel`, with the peer handed to `get_chat`
    | Verify(id: string)   // `verify_task`: POST /tasks/claim for this id
    | Pause                // the 5-10 s sleep after a task that was not skipped
    | Backoff              // the 3 s sleep after the task list could not be fetched

  /** Prefix of a private invite link, which `get_chat` takes as it is. */
  const InvitePrefix: string := "https://t.me/+"

  /** Length of `https://t.me/`, cut from every other link. */
  const PublicPrefixLength: nat := 13

  /**
   * The peer `join_tg_channel` resolves: the link itself when it contains
   * `https://t.me/+`, otherwise the link with its first 13 characters cut
   * (a Python slice past the end gives the empty string).
   */
  function ChannelPeer(link: string): (peer: string)
    ensures Contains(link, InvitePrefix) ==> peer == link
    ensures !Contains(link, InvitePrefix) ==>
      |peer| == (if |link| >= PublicPrefixLength then |link| - PublicPrefixLength else 0) &&
      link == link[..|link| - |peer|] + peer
  {
    if Contains(link, InvitePrefix) then link
    else if |link| >= PublicPrefixLength then link[PublicPrefixLength..]
    else ""
  }

  /** A private invite link is kept whole. */
  lemma InviteLinkKept(hash: string)
    ensures ChannelPeer(InvitePrefix + hash) == InvitePrefix + hash
  {
    var link := InvitePrefix + hash;
    assert link[..|InvitePrefix|] == InvitePrefix;
  }

  /** A public link `https://t.me/name` resolves to `name`. */
  lemma PublicLinkTrimmed(name: string)
    requires !Contains("https://t.me/" + name, InvitePrefix)
    ensures ChannelPeer("https://t.me/" + name) == name
  {
    var link := "https://t.me/" + name;
    assert link[PublicPrefixLength..] == name;
  }

  /** `not task_json['transaction_id']` fails: the task already has a transaction. */
  predicate Completed(t: Task)
  {
    t.transactionId.Some? && t.transactionId.value != ""
  }

  /** `task_json['channel_id'] != '' and task_json['type'] == 'tg'` (JSON `null` differs from `''`). */
  predicate IsChannelTask(t: Task)
  {
    t.channelId != Some("") && t.kind == "tg"
  }

  /** The steps the loop body takes for one task. */
  function TaskSteps(t: Task, joinChannels: bool): seq<Step>
  {
    if t.hidden || Completed(t) then []
    else if IsChannelTask(t) then
      if joinChannels then [Join(ChannelPeer(t.link)), Verify(t.id), Pause] else []
    else if t.kind != "invite" then [Verify(t.id), Pause]
    else [Pause]
  }

  /** The steps of a whole pass over `tasks`, in list order. */
  function Trace(tasks: seq<Task>, joinChannels: bool): seq<Step>
  {
    if tasks == [] then []
    else Trace(tasks[..|tasks| - 1], joinChannels) + TaskSteps(tasks[|tasks| - 1], joinChannels)
  }

  /**
   * `processing_tasks`: `fetched` is the task list, or `None` when the
   * request (or its JSON) failed, in which case the error is logged and the
   * worker sleeps 3 s.
   */
  method ProcessingTasks(fetched: Option<seq<Task>>, joinChannels: bool) returns (steps: seq<Step>)
    ensures fetched.None? ==> steps == [Backoff]
    ensures fetched.Some? ==> steps == Trace(fetched.value, joinChannels)
  {
    if fetched.None? {
      return [Backoff];
    }
    var tasks := fetched.value;
    steps := [];
    var i := 0;
    while i < |tasks|
      invariant 0 <= i <= |tasks|
      invariant steps == Trace(tasks[..i], joinChannels)
    {
      var t := tasks[i];
      TraceExtend(tasks, i, joinChannels);
      if !t.hidden {
        if !Completed(t) {
          if IsChannelTask(t) {
            if !joinChannels {
              i := i + 1;
              continue;
            }
            steps := steps + [Join(ChannelPeer(t.link)), Verify(t.id)];
          } else if t.kind != "invite" {
            steps := steps + [Verify(t.id)];
          }
          steps := steps + [Pause];
        }
      }
      i := i + 1;
    }
    assert tasks[..|tasks|] == tasks;
  }

  /** The pass over one more task adds that task's steps. */
  lemma TraceExtend(tasks: seq<Task>, i: nat, joinChannels: bool)
    requires i < |tasks|
    ensures Trace(tasks[..i + 1], joinChannels) == Trace(tasks[..i], joinChannels) + TaskSteps(tasks[i], joinChannels)
  {
    assert tasks[..i + 1][..i] == tasks[..i];
  }

  /** A task whose id the pass posts to `/tasks/claim`. */
  predicate Eligible(t: Task, joinChannels: bool)
  {
    !t.hidden && !Completed(t) && (if IsChannelTask(t) then joinChannels else t.kind != "invite")
  }

  /** The ids of the eligible tasks, in list order. */
  function EligibleIds(tasks: seq<Task>, joinChannels: bool): seq<string>
  {
    if tasks == [] then []
    else
      var last := tasks[|tasks| - 1];
      EligibleIds(tasks[..|tasks| - 1], joinChannels) + (if Eligible(last, joinChannels) then [last.id] else [])
  }

  /** The ids a sequence of steps verifies, in order. */
  function VerifiedIds(steps: seq<Step>): seq<string>
  {
    if steps == [] then []
    else VerifiedIds(steps[..|steps| - 1]) + (if steps[|steps| - 1].Verify? then [steps[|steps| - 1].id] else [])
  }

  lemma {:induction false} VerifiedIdsAppend(a: seq<Step>, b: seq<Step>)
    ensures VerifiedIds(a + b) == VerifiedIds(a) + VerifiedIds(b)
  {
    if b != [] {
      assert (a + b)[..|a + b| - 1] == a + b[..|b| - 1];
      VerifiedIdsAppend(a, b[..|b| - 1]);
    } else {
      assert a + b == a;
    }
  }

  /**
   * The ids a pass verifies are exactly the ids of the eligible tasks, in
   * list order: hidden tasks, completed tasks, `invite` tasks and (with
   * channel joining off) channel tasks never reach `verify_task`.
   */
  lemma {:induction false} VerifiedAreEligible(tasks: seq<Task>, joinChannels: bool)
    ensures VerifiedIds(Trace(tasks, joinChannels)) == EligibleIds(tasks, joinChannels)
  {
    if tasks != [] {
      var last := tasks[|tasks| - 1];
      VerifiedAreEligible(tasks[..|tasks| - 1], joinChannels);
      VerifiedIdsAppend(Trace(tasks[..|tasks| - 1], joinChannels), TaskSteps(last, joinChannels));
      TaskVerifies(last, joinChannels);
    }
  }

  /** One task's steps verify its id exactly when it is eligible. */
  lemma TaskVerifies(t: Task, joinChannels: bool)
    ensures VerifiedIds(TaskSteps(t, joinChannels)) == if Eligible(t, joinChannels) then [t.id] else []
  {
    var s := TaskSteps(t, joinChannels);
    if |s| == 3 {
      assert s[..2][..1] == s[..1] && s[..1][..0] == [];
      assert VerifiedIds(s[..1]) == [];
    } else if |s| == 2 {
      assert s[..1][..0] == [];
      assert VerifiedIds(s[..1]) == [t.id];
    } else if |s| == 1 {
      assert s[..0] == [];
    }
  }

  /** Every `Verify` step of a sequence contributes its id to `VerifiedIds`. */
  lemma {:induction false} VerifyStepListed(steps: seq<Step>, k: nat)
    requires k < |steps| && steps[k].Verify?
    ensures steps[k].id in VerifiedIds(steps)
  {
    if k < |steps| - 1 {
      VerifyStepListed(steps[..|steps| - 1], k);
    }
  }

  /** Every id in `EligibleIds` is the id of an eligible task of the list. */
  lemma {:induction false} EligibleIdsFrom(tasks: seq<Task>, joinChannels: bool, id: string)
    requires id in EligibleIds(tasks, joinChannels)
    ensures exists i :: 0 <= i < |tasks| && tasks[i].id == id && Eligible(tasks[i], joinChannels)
  {
    var front := tasks[..|tasks| - 1];
    if id in EligibleIds(front, joinChannels) {
      EligibleIdsFrom(front, joinChannels, id);
      var i :| 0 <= i < |front| && front[i].id == id && Eligible(front[i], joinChannels);
      assert tasks[i] == front[i];
    } else {
      assert tasks[|tasks| - 1].id == id && Eligible(tasks[|tasks| - 1], joinChannels);
    }
  }

  /**
   * Every `verify_task` call of a pass is for a task of the list with that
   * id that is visible, not completed and not of type `invite`, and that
   * is a channel task only when channel joining is on.
   */
  lemma {:induction false} VerifiedFromActionable(tasks: seq<Task>, joinChannels: bool, k: nat)
    requires k < |Trace(tasks, joinChannels)| && Trace(tasks, joinChannels)[k].Verify?
    ensures exists i :: (0 <= i < |tasks| && tasks[i].id == Trace(tasks, joinChannels)[k].id &&
      !tasks[i].hidden && !Completed(tasks[i]) && tasks[i].kind != "invite" &&
      (IsChannelTask(tasks[i]) ==> joinChannels))
  {
    var id := Trace(tasks, joinChannels)[k].id;
    VerifyStepListed(Trace(tasks, joinChannels), k);
    VerifiedAreEligible(tasks, joinChannels);
    EligibleIdsFrom(tasks, joinChannels, id);
  }

  /** No eligible task in the list carries id `id`. */
  lemma {:induction false} NotEligibleNotListed(tasks: seq<Task>, joinChannels: bool, id: string)
    requires forall i :: 0 <= i < |tasks| && tasks[i].id == id ==> !Eligible(tasks[i], joinChannels)
    ensures id !in EligibleIds(tasks, joinChannels)
  {
    if tasks != [] {
      NotEligibleNotListed(tasks[..|tasks| - 1], joinChannels, id);
    }
  }

  /**
   * An id that only hidden tasks, completed tasks, `invite` tasks and (with
   * channel joining off) channel tasks carry is never verified.
   */
  lemma SkippedNeverVerified(tasks: seq<Task>, joinChannels: bool, id: string)
    requires forall i :: 0 <= i < |tasks| && tasks[i].id == id ==>
      tasks[i].hidden || Completed(tasks[i]) || tasks[i].kind == "invite" ||
      (IsChannelTask(tasks[i]) && !joinChannels)
    ensures id !in VerifiedIds(Trace(tasks, joinChannels))
  {
    VerifiedAreEligible(tasks, joinChannels);
    NotEligibleNotListed(tasks, joinChannels, id);
  }

  /** With distinct task ids, every id is verified at most once per pass. */
  lemma {:induction false} VerifiedAtMostOnce(tasks: seq<Task>, joinChannels: bool)
    requires forall i, j :: 0 <= i < j < |tasks| ==> tasks[i].id != tasks[j].id
    ensures var ids := VerifiedIds(Trace(tasks, joinChannels));
      forall i, j :: 0 <= i < j < |ids| ==> ids[i] != ids[j]
  {
    VerifiedAreEligible(tasks, joinChannels);
    EligibleIdsDistinct(tasks, joinChannels);
  }

  lemma {:induction false} EligibleIdsDistinct(tasks: seq<Task>, joinChannels: bool)
    requires forall i, j :: 0 <= i < j < |tasks| ==> tasks[i].id != tasks[j].id
    ensures var ids := EligibleIds(tasks, joinChannels);
      forall i, j :: 0 <= i < j < |ids| ==> ids[i] != ids[j]
  {
    if tasks != [] {
      var front := tasks[..|tasks| - 1];
      var last := tasks[|tasks| - 1];
      EligibleIdsDistinct(front, joinChannels);
      NotEligibleNotListed(front, joinChannels, last.id);
    }
  }

  /** With channel joining off, a pass never joins a channel. */
  lemma {:induction false} NoJoinWhenDisabled(tasks: seq<Task>)
    ensures forall k :: 0 <= k < |Trace(tasks, false)| ==> !Trace(tasks, false)[k].Join?
  {
    if tasks != [] {
      NoJoinWhenDisabled(tasks[..|tasks| - 1]);
    }
  }

  /** The tasks that are neither hidden, completed, nor channel tasks skipped by `continue`. */
  function Handled(tasks: seq<Task>, joinChannels: bool): nat
  {
    if tasks == [] then 0
    else
      var last := tasks[|tasks| - 1];
      Handled(tasks[..|tasks| - 1], joinChannels) +
      (if !last.hidden && !Completed(last) && (joinChannels || !IsChannelTask(last)) then 1 else 0)
  }

  /** The number of pauses in a sequence of steps. */
  function Pauses(steps: seq<Step>): nat
  {
    if steps == [] then 0
    else Pauses(steps[..|steps| - 1]) + (if steps[|steps| - 1] == Pause then 1 else 0)
  }

  lemma {:induction false} PausesAppend(a: seq<Step>, b: seq<Step>)
    ensures Pauses(a + b) == Pauses(a) + Pauses(b)
  {
    if b != [] {
      assert (a + b)[..|a + b| - 1] == a + b[..|b| - 1];
      PausesAppend(a, b[..|b| - 1]);
    } else {
      assert a + b == a;
    }
  }

  /**
   * The inter-task pause happens once per handled task: hidden and
   * completed tasks, and channel tasks skipped with joining off, cause no
   * sleep; every other task (an `invite` one included) causes one.
   */
  lemma {:induction false} OnePausePerHandledTask(tasks: seq<Task>, joinChannels: bool)
    ensures Pauses(Trace(tasks, joinChannels)) == Handled(tasks, joinChannels)
  {
    if tasks != [] {
      var last := tasks[|tasks| - 1];
      var s := TaskSteps(last, joinChannels);
      OnePausePerHandledTask(tasks[..|tasks| - 1], joinChannels);
      PausesAppend(Trace(tasks[..|tasks| - 1], joinChannels), s);
      if |s| == 3 {
        assert Pauses(s) == Pauses(s[..2]) + 1;
        assert Pauses(s[..2]) == Pauses(s[..1]);
        assert Pauses(s[..1]) == Pauses(s[..0]);
      } else if |s| == 2 {
        assert Pauses(s) == Pauses(s[..1]) + 1;
        assert Pauses(s[..1]) == Pauses(s[..0]);
      } else if |s| == 1 {
        assert Pauses(s) == Pauses(s[..0]) + 1;
      }
    }
  }
}
