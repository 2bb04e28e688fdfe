/** The results recorded while a workflow runs (context.go). */
module ActionContext {
  import opened Base

  datatype Status = Running | Succeeded | Failed | Skipped | Timeout | Cancelled

  datatype SkipReason = NoReason | Condition | UpToDate | DependencyFailed

  // Absent from the map: pending.
  datatype ActionResult = ActionResult(status: Status, reason: SkipReason, error: string, attempts: nat)

  type Results = map<Name, ActionResult>

  predicate Failing(s: Status) {
    s == Failed || s == Timeout
  }

  const TIMED_OUT := "action timed out"

  // ---------------------------------------------------------------------
  // What each Mark operation does to the results

  function Existing(m: Results, name: Name): ActionResult {
    if name in m then m[name] else ActionResult(Running, NoReason, "", 0)
  }

  function WithRunning(m: Results, name: Name): Results {
    m[name := ActionResult(Running, NoReason, "", 0)]
  }

  function WithSucceeded(m: Results, name: Name): Results {
    m[name := Existing(m, name).(status := Succeeded)]
  }

  function WithFailed(m: Results, name: Name, error: string): Results {
    m[name := Existing(m, name).(status := Failed, error := error)]
  }

  function WithTimeout(m: Results, name: Name): Results {
    m[name := Existing(m, name).(status := Timeout, error := TIMED_OUT)]
  }

  function WithCancelled(m: Results, name: Name): Results {
    m[name := Existing(m, name).(status := Cancelled)]
  }

  function WithSkipped(m: Results, name: Name, reason: SkipReason): Results {
    m[name := ActionResult(Skipped, reason, "", 0)]
  }

  function WithAttempts(m: Results, name: Name, attempts: nat): Results {
    if name in m then m[name := m[name].(attempts := attempts)] else m
  }

  class Context {
    var actions: Results

    constructor ()
      ensures actions == map[]
    {
      actions := map[];
    }

    method GetResult(name: Name) returns (res: Option<ActionResult>)
      ensures res == if name in actions then Some(actions[name]) else None
    {
      if name in actions { return Some(actions[name]); }
      return None;
    }

    method MarkRunning(name: Name)
      modifies this
      ensures actions == WithRunning(old(actions), name)
    {
      actions := actions[name := ActionResult(Running, NoReason, "", 0)];
    }

    method MarkSucceeded(name: Name)
      modifies this
      ensures actions == WithSucceeded(old(actions), name)
    {
      if name in actions {
        actions := actions[name := actions[name].(status := Succeeded)];
      } else {
        actions := actions[name := ActionResult(Succeeded, NoReason, "", 0)];
      }
    }

    method RecordAttempts(name: Name, attempts: nat)
      modifies this
      ensures actions == WithAttempts(old(actions), name, attempts)
    {
      if name in actions {
        actions := actions[name := actions[name].(attempts := attempts)];
      }
    }

    method MarkFailed(name: Name, error: string)
      modifies this
      ensures actions == WithFailed(old(actions), name, error)
    {
      if name in actions {
        actions := actions[name := actions[name].(status := Failed, error := error)];
      } else {
        actions := actions[name := ActionResult(Failed, NoReason, error, 0)];
      }
    }

    method MarkSkipped(name: Name, reason: SkipReason)
      modifies this
      ensures actions == WithSkipped(old(actions), name, reason)
    {
      actions := actions[name := ActionResult(Skipped, reason, "", 0)];
    }

    method MarkTimeout(name: Name)
      modifies this
      ensures actions == WithTimeout(old(actions), name)
    {
      if name in actions {
        actions := actions[name := actions[name].(status := Timeout, error := TIMED_OUT)];
      } else {
        actions := actions[name := ActionResult(Timeout, NoReason, TIMED_OUT, 0)];
      }
    }

    method MarkCancelled(name: Name)
      modifies this
      ensures actions == WithCancelled(old(actions), name)
    {
      if name in actions {
        actions := actions[name := actions[name].(status := Cancelled)];
      } else {
        actions := actions[name := ActionResult(Cancelled, NoReason, "", 0)];
      }
    }

    // The loops over a whole phase: every action of it gets the same mark.
    method MarkAllSkipped(names: seq<Name>, reason: SkipReason)
      modifies this
      ensures actions == AllSkipped(old(actions), names, reason)
    {
      var i := 0;
      NoneMarked(actions, names, reason);
      hide AllSkipped;
      while i < |names|
        invariant 0 <= i <= |names|
        invariant actions == AllSkipped(old(actions), names[..i], reason)
      {
        AllSkippedStep(old(actions), names, i, reason);
        MarkSkipped(names[i], reason);
        i := i + 1;
      }
      assert names[..i] == names;
    }

    method MarkAllCancelled(names: seq<Name>)
      modifies this
      ensures actions == AllCancelled(old(actions), names)
    {
      var i := 0;
      NoneMarked(actions, names, NoReason);
      hide AllCancelled;
      while i < |names|
        invariant 0 <= i <= |names|
        invariant actions == AllCancelled(old(actions), names[..i])
      {
        AllCancelledStep(old(actions), names, i);
        MarkCancelled(names[i]);
        i := i + 1;
      }
      assert names[..i] == names;
    }
  }

  lemma NoneMarked(m: Results, names: seq<Name>, reason: SkipReason)
    ensures AllSkipped(m, names[..0], reason) == m && AllCancelled(m, names[..0]) == m
  {
  }

  lemma AllSkippedStep(m: Results, names: seq<Name>, i: nat, reason: SkipReason)
    requires i < |names|
    ensures AllSkipped(m, names[..i + 1], reason) == WithSkipped(AllSkipped(m, names[..i], reason), names[i], reason)
  {
    assert names[..i + 1] == names[..i] + [names[i]];
    assert Elems(names[..i + 1]) == Elems(names[..i]) + {names[i]};
  }

  lemma AllCancelledStep(m: Results, names: seq<Name>, i: nat)
    requires i < |names|
    ensures AllCancelled(m, names[..i + 1]) == WithCancelled(AllCancelled(m, names[..i]), names[i])
  {
    assert names[..i + 1] == names[..i] + [names[i]];
    assert Elems(names[..i + 1]) == Elems(names[..i]) + {names[i]};
  }

  ghost function AllSkipped(m: Results, names: seq<Name>, reason: SkipReason): Results {
    map n | n in m.Keys + Elems(names) ::
      if n in names then ActionResult(Skipped, reason, "", 0) else m[n]
  }

  ghost function AllCancelled(m: Results, names: seq<Name>): Results {
    map n | n in m.Keys + Elems(names) ::
      if n in names then Existing(m, n).(status := Cancelled) else m[n]
  }
}
