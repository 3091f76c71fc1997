/** Candidates that keep failing are left out of the next rounds for a while. */
module Cooldown {

  const FAILURE_COOLDOWN_S := 120.0
  const COOLDOWN_AFTER_FAILURES := 2

  datatype Outcome = Outcome(name: string, succeeded: bool, at: real)

  /** How many of the latest outcomes of `name` are failures. */
  function Streak(h: seq<Outcome>, name: string): nat {
    if h == [] then 0
    else
      var last := h[|h| - 1];
      if last.name != name then Streak(h[..|h| - 1], name)
      else if last.succeeded then 0
      else Streak(h[..|h| - 1], name) + 1
  }

  function LastAt(h: seq<Outcome>, name: string): real {
    if h == [] then 0.0
    else if h[|h| - 1].name == name then h[|h| - 1].at
    else LastAt(h[..|h| - 1], name)
  }

  lemma Extended(h: seq<Outcome>, o: Outcome)
    ensures forall l :: Streak(h + [o], l) == if l != o.name then Streak(h, l) else if o.succeeded then 0 else Streak(h, l) + 1
    ensures forall l :: LastAt(h + [o], l) == if l != o.name then LastAt(h, l) else o.at
  {
    assert (h + [o])[..|h|] == h;
  }

  class Candidates {
    var failures: map<string, nat>
    var cooldownUntil: map<string, real>

    /** The two tables say what the whole history of outcomes says. */
    ghost predicate Reflects(h: seq<Outcome>)
      reads this
    {
      && (forall l :: l in failures <==> Streak(h, l) > 0)
      && (forall l :: l in failures ==> failures[l] == Streak(h, l))
      && (forall l :: l in cooldownUntil <==> Streak(h, l) >= COOLDOWN_AFTER_FAILURES)
      && (forall l :: l in cooldownUntil ==> cooldownUntil[l] == LastAt(h, l) + FAILURE_COOLDOWN_S)
    }

    constructor ()
      ensures Reflects([])
    {
      failures, cooldownUntil := map[], map[];
    }

    method Record(name: string, succeeded: bool, now: real, ghost h: seq<Outcome>)
      requires Reflects(h)
      modifies this
      ensures Reflects(h + [Outcome(name, succeeded, now)])
    {
      hide Streak, LastAt;
      Extended(h, Outcome(name, succeeded, now));
      if succeeded {
        failures, cooldownUntil := failures - {name}, cooldownUntil - {name};
        return;
      }
      var count := (if name in failures then failures[name] else 0) + 1;
      failures := failures[name := count];
      if count >= COOLDOWN_AFTER_FAILURES {
        cooldownUntil := cooldownUntil[name := now + FAILURE_COOLDOWN_S];
      }
    }

    /** A fallback is skipped iff its last two outcomes failed, the latter less than the cool-down ago. */
    predicate Skipped(name: string, now: real)
      reads this
    {
      (if name in cooldownUntil then cooldownUntil[name] else 0.0) > now
    }
  }

  /** Outcome j is the last of `name`. */
  ghost predicate Latest(h: seq<Outcome>, name: string, j: int) {
    0 <= j < |h| && h[j].name == name && forall k :: j < k < |h| ==> h[k].name != name
  }

  /** Outcomes i and j are the last two of `name`. */
  ghost predicate LatestTwo(h: seq<Outcome>, name: string, i: int, j: int) {
    Latest(h, name, j) && 0 <= i < j && h[i].name == name && forall k :: i < k < j ==> h[k].name != name
  }

  /** What the last outcome of a history makes of these notions. */
  lemma LatestStep(h: seq<Outcome>, name: string, i: int, j: int)
    requires h != []
    ensures var m := |h| - 1;
      && (h[m].name == name ==> (Latest(h, name, j) <==> j == m))
      && (h[m].name != name ==> (Latest(h, name, j) <==> Latest(h[..m], name, j)))
      && (h[m].name == name ==> (LatestTwo(h, name, i, j) <==> j == m && Latest(h[..m], name, i)))
      && (h[m].name != name ==> (LatestTwo(h, name, i, j) <==> LatestTwo(h[..m], name, i, j)))
      && (Latest(h[..m], name, j) ==> 0 <= j < m && h[..m][j] == h[j])
      && (LatestTwo(h[..m], name, i, j) ==> 0 <= i < j < m && h[..m][i] == h[i] && h[..m][j] == h[j])
  {
  }

  ghost predicate LastFailed(h: seq<Outcome>, name: string) {
    exists j :: Latest(h, name, j) && !h[j].succeeded
  }

  ghost predicate LastTwoFailed(h: seq<Outcome>, name: string) {
    exists i, j :: LatestTwo(h, name, i, j) && !h[i].succeeded && !h[j].succeeded
  }

  lemma LastFailedStep(h: seq<Outcome>, name: string)
    requires h != []
    ensures var m := |h| - 1;
            LastFailed(h, name) <==> if h[m].name == name then !h[m].succeeded else LastFailed(h[..m], name)
  {
    var m := |h| - 1;
    if j :| Latest(h, name, j) && !h[j].succeeded {
      LatestStep(h, name, 0, j);
    }
    if h[m].name == name {
      LatestStep(h, name, 0, m);
    } else if j :| Latest(h[..m], name, j) && !h[..m][j].succeeded {
      LatestStep(h, name, 0, j);
    }
  }

  lemma LastTwoFailedStep(h: seq<Outcome>, name: string)
    requires h != []
    ensures var m := |h| - 1;
            LastTwoFailed(h, name) <==> if h[m].name == name then !h[m].succeeded && LastFailed(h[..m], name) else LastTwoFailed(h[..m], name)
  {
    var m := |h| - 1;
    if i, j :| LatestTwo(h, name, i, j) && !h[i].succeeded && !h[j].succeeded {
      LatestStep(h, name, i, j);
      LatestStep(h, name, 0, i);
    }
    if h[m].name == name {
      if i :| Latest(h[..m], name, i) && !h[..m][i].succeeded {
        LatestStep(h, name, i, m);
        LatestStep(h, name, 0, i);
      }
    } else if i, j :| LatestTwo(h[..m], name, i, j) && !h[..m][i].succeeded && !h[..m][j].succeeded {
      LatestStep(h, name, i, j);
    }
  }

  lemma {:induction false} StreaksAre(h: seq<Outcome>, name: string)
    ensures Streak(h, name) >= 1 <==> LastFailed(h, name)
    ensures Streak(h, name) >= 2 <==> LastTwoFailed(h, name)
    decreases |h|
  {
    if h != [] {
      hide LastFailed, LastTwoFailed;
      StreaksAre(h[..|h| - 1], name);
      LastFailedStep(h, name);
      LastTwoFailedStep(h, name);
    }
  }

  lemma {:induction false} LastAtIs(h: seq<Outcome>, name: string, j: int)
    requires Latest(h, name, j)
    ensures LastAt(h, name) == h[j].at
    decreases |h|
  {
    LatestStep(h, name, 0, j);
    if h[|h| - 1].name != name {
      LastAtIs(h[..|h| - 1], name, j);
    }
  }

  /** A fallback is skipped exactly when its last two outcomes are failures and the latter is less than two minutes old. */
  lemma SkippedIff(c: Candidates, h: seq<Outcome>, name: string, now: real)
    requires c.Reflects(h) && now >= 0.0
    ensures c.Skipped(name, now) <==>
              exists i, j :: LatestTwo(h, name, i, j) && !h[i].succeeded && !h[j].succeeded && now - h[j].at < 120.0
  {
    assert name in c.cooldownUntil <==> Streak(h, name) >= COOLDOWN_AFTER_FAILURES;
    StreaksAre(h, name);
    forall j | Latest(h, name, j)
      ensures LastAt(h, name) == h[j].at
    {
      LastAtIs(h, name, j);
    }
    hide Streak, LastAt;
  }
}
