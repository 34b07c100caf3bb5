/**
 Any number of deploy runs over one lock file. Each run contributes the events of one Deploy call,
 whose lock discipline Deployer.Deploy guarantees (PhaseOf its log is never Broken); the runs
 interleave in any way, and every command may fail after having taken effect.
 */
module DeployLock {
  import opened Common
  import opened Errors
  import opened Trace

  /** The lock file, holding whoever created it, and how far each run has got. */
  datatype System = System(file: Option<int>, at: seq<nat>)

  type Scripts = seq<seq<Event>>

  ghost predicate Disciplined(scripts: Scripts) {
    forall i :: 0 <= i < |scripts| ==> PhaseOf(scripts[i]) != Broken
  }

  /** The file may be there from the start, but then it belongs to none of the runs. */
  predicate Initial(scripts: Scripts, s: System) {
    && |s.at| == |scripts|
    && (forall i :: 0 <= i < |s.at| ==> s.at[i] == 0)
    && (s.file.Some? ==> s.file.value < 0)
  }

  /**
   What an event of run i does to the file. Taking the lock is an atomic exclusive create, which
   succeeds only if there is no file; if it reports an error it may still have created one. A
   release that reports an error may or may not have removed the file.
   */
  predicate FileEffect(i: int, e: Event, before: Option<int>, after: Option<int>) {
    match e
    case Lock(_, None) => before == None && after == Some(i)
    case Lock(_, Some(_)) => after == before || (before == None && after == Some(i))
    case Unlock(_, None) => after == None
    case Unlock(_, Some(_)) => after == before || after == None
    case _ => after == before
  }

  /** Run i performs its next event. */
  predicate Next(scripts: Scripts, s: System, t: System, i: int) {
    && 0 <= i < |scripts| == |s.at|
    && s.at[i] < |scripts[i]|
    && FileEffect(i, scripts[i][s.at[i]], s.file, t.file)
    && t.at == s.at[i := s.at[i] + 1]
  }

  ghost predicate IsExecution(scripts: Scripts, states: seq<System>, who: seq<int>) {
    && |states| == |who| + 1
    && Initial(scripts, states[0])
    && forall k :: 0 <= k < |who| ==> Next(scripts, states[k], states[k + 1], who[k])
  }

  /** The events run i has performed. */
  function Performed(scripts: Scripts, s: System, i: int): seq<Event>
    requires 0 <= i < |scripts| == |s.at| && s.at[i] <= |scripts[i]|
  {
    scripts[i][..s.at[i]]
  }

  /** Run i is between a successful lock step and its unlock. */
  predicate Holds(scripts: Scripts, s: System, i: int) {
    && 0 <= i < |scripts| == |s.at|
    && s.at[i] <= |scripts[i]|
    && PhaseOf(Performed(scripts, s, i)) == Held
  }

  ghost predicate Inv(scripts: Scripts, s: System) {
    && |s.at| == |scripts|
    && (forall i :: 0 <= i < |scripts| ==> s.at[i] <= |scripts[i]|)
    && (forall i :: Holds(scripts, s, i) ==> s.file == Some(i))
  }

  /** The phase of a run before and after its next event. */
  lemma PhaseStep(scripts: Scripts, s: System, t: System, i: int)
    requires Disciplined(scripts) && Next(scripts, s, t, i)
    ensures var e := scripts[i][s.at[i]];
            PhaseOf(Performed(scripts, t, i)) == Advance(PhaseOf(Performed(scripts, s, i)), e) != Broken
  {
    var n := s.at[i];
    assert scripts[i][..n + 1] == scripts[i][..n] + [scripts[i][n]];
    Snoc(scripts[i][..n], scripts[i][n]);
    PrefixUnbroken(scripts[i], n + 1);
  }

  lemma NextKeepsInv(scripts: Scripts, s: System, t: System, i: int)
    requires Disciplined(scripts) && Inv(scripts, s) && Next(scripts, s, t, i)
    ensures Inv(scripts, t)
  {
    PhaseStep(scripts, s, t, i);
    assert scripts[i][s.at[i]].Unlock? ==> Holds(scripts, s, i);
    forall j | Holds(scripts, t, j)
      ensures t.file == Some(j)
    {
      if j != i {
        assert Performed(scripts, t, j) == Performed(scripts, s, j);
        assert Holds(scripts, s, j);
      } else if !scripts[i][s.at[i]].Lock? {
        assert Holds(scripts, s, i);
      }
    }
  }

  lemma {:induction false} ReachableInv(scripts: Scripts, states: seq<System>, who: seq<int>, k: nat)
    requires Disciplined(scripts) && IsExecution(scripts, states, who) && k < |states|
    ensures Inv(scripts, states[k])
  {
    if k > 0 {
      ReachableInv(scripts, states, who, k - 1);
      assert Next(scripts, states[k - 1], states[k - 1 + 1], who[k - 1]);
      NextKeepsInv(scripts, states[k - 1], states[k], who[k - 1]);
    }
  }

  /** At no time are two runs between their lock step and their unlock. */
  lemma MutualExclusion(scripts: Scripts, states: seq<System>, who: seq<int>, k: nat, i: int, j: int)
    requires Disciplined(scripts) && IsExecution(scripts, states, who) && k < |states|
    requires Holds(scripts, states[k], i) && Holds(scripts, states[k], j)
    ensures i == j
  {
    ReachableInv(scripts, states, who, k);
  }

  /** A command on all hosts is issued only by the one run that holds the lock. */
  lemma StepsAreExclusive(scripts: Scripts, states: seq<System>, who: seq<int>, k: nat, j: int)
    requires Disciplined(scripts) && IsExecution(scripts, states, who) && k < |who|
    requires Next(scripts, states[k], states[k + 1], who[k]) && scripts[who[k]][states[k].at[who[k]]].Step?
    ensures Holds(scripts, states[k], who[k])
    ensures Holds(scripts, states[k], j) ==> j == who[k]
  {
    PhaseStep(scripts, states[k], states[k + 1], who[k]);
    ReachableInv(scripts, states, who, k);
    assert Holds(scripts, states[k], who[k]);
  }

  /** The file is removed only by the run that created it, which held the lock until then. */
  lemma OnlyTheHolderRemoves(scripts: Scripts, states: seq<System>, who: seq<int>, k: nat)
    requires Disciplined(scripts) && IsExecution(scripts, states, who) && k < |who|
    requires states[k].file.Some? && states[k + 1].file != states[k].file
    ensures states[k].file == Some(who[k]) && Holds(scripts, states[k], who[k])
    ensures states[k + 1].file == None
  {
    assert Next(scripts, states[k], states[k + 1], who[k]);
    PhaseStep(scripts, states[k], states[k + 1], who[k]);
    ReachableInv(scripts, states, who, k);
  }

  /** A lock left behind by someone else shuts every run out for good. */
  lemma {:induction false} ForeignLockStays(scripts: Scripts, states: seq<System>, who: seq<int>, k: nat, i: int)
    requires Disciplined(scripts) && IsExecution(scripts, states, who) && k < |states|
    requires states[0].file.Some?
    ensures states[k].file == states[0].file && !Holds(scripts, states[k], i)
  {
    ReachableInv(scripts, states, who, k);
    if k > 0 {
      ForeignLockStays(scripts, states, who, k - 1, i);
      if states[k].file != states[k - 1].file {
        OnlyTheHolderRemoves(scripts, states, who, k - 1);
        ForeignLockStays(scripts, states, who, k - 1, who[k - 1]);
      }
    }
  }
}
