// Which qemu-img create commands a provisioning trace holds, stated for
// any loop whose iterations each create at most one given target.

module FleetCreates {
  import opened Wrappers
  import opened Fleet

  /** The qemu-img create commands of a trace, in order. */
  function CreateCommands(s: seq<Action>): (r: seq<Action>)
    ensures |r| <= |s|
  {
    if s == [] then []
    else (if s[0].CreateOverlay? then [s[0]] else []) + CreateCommands(s[1..])
  }

  /** Only the trace's own create commands are kept. */
  lemma {:induction false} CreateCommandsFrom(s: seq<Action>)
    ensures forall x :: x in CreateCommands(s) ==> x.CreateOverlay? && x in s
  {
    if s != [] {
      CreateCommandsFrom(s[1..]);
    }
  }

  /** A trace without create commands has none. */
  lemma {:induction false} CreateCommandsNone(s: seq<Action>)
    requires forall k :: 0 <= k < |s| ==> !s[k].CreateOverlay?
    ensures CreateCommands(s) == []
  {
    if s != [] {
      CreateCommandsNone(s[1..]);
    }
  }

  lemma {:induction false} CreateCommandsAppend(x: seq<Action>, y: seq<Action>)
    ensures CreateCommands(x + y) == CreateCommands(x) + CreateCommands(y)
  {
    if x == [] {
      assert x + y == y;
    } else {
      var head := if x[0].CreateOverlay? then [x[0]] else [];
      assert (x + y)[0] == x[0] && (x + y)[1..] == x[1..] + y;
      CreateCommandsAppend(x[1..], y);
      calc {
        CreateCommands(x + y);
        head + CreateCommands(x[1..] + y);
        head + (CreateCommands(x[1..]) + CreateCommands(y));
        (head + CreateCommands(x[1..])) + CreateCommands(y);
      }
    }
  }

  predicate NoDuplicates<T(==)>(s: seq<T>)
  {
    forall p, q :: 0 <= p < q < |s| ==> s[p] != s[q]
  }

  /** A loop whose iteration k creates targets[k] when flags[k] holds and
      nothing otherwise. */
  predicate CreatesAsFlagged(steps: seq<Step>, targets: seq<Action>, flags: seq<bool>)
  {
    && |targets| == |steps| && |flags| == |steps|
    && forall k :: 0 <= k < |steps| ==>
         CreateCommands(steps[k].actions) == if flags[k] then [targets[k]] else []
  }

  /** The elements of t whose flag is set, in order. */
  function Picked<T>(t: seq<T>, f: seq<bool>): (r: seq<T>)
    requires |t| == |f|
    ensures |r| <= |t|
  {
    if t == [] then []
    else Picked(t[..|t| - 1], f[..|f| - 1]) + (if f[|f| - 1] then [t[|t| - 1]] else [])
  }

  lemma {:induction false} PickedFrom<T>(t: seq<T>, f: seq<bool>)
    requires |t| == |f|
    ensures forall x :: x in Picked(t, f) ==> exists k :: 0 <= k < |t| && f[k] && x == t[k]
  {
    if t != [] {
      var n := |t|;
      PickedFrom(t[..n - 1], f[..n - 1]);
      forall x | x in Picked(t, f)
        ensures exists k :: 0 <= k < n && f[k] && x == t[k]
      {
        if x in Picked(t[..n - 1], f[..n - 1]) {
          var k :| 0 <= k < n - 1 && f[..n - 1][k] && x == t[..n - 1][k];
          assert f[k] && x == t[k];
        } else {
          assert f[n - 1] && x == t[n - 1];
        }
      }
    }
  }

  lemma {:induction false} PickedOnce<T>(t: seq<T>, f: seq<bool>)
    requires |t| == |f| && NoDuplicates(t)
    ensures NoDuplicates(Picked(t, f))
  {
    if t != [] {
      var n := |t|;
      var before := Picked(t[..n - 1], f[..n - 1]);
      PickedOnce(t[..n - 1], f[..n - 1]);
      PickedFrom(t[..n - 1], f[..n - 1]);
      LastNotInPrefix(t);
      var r := Picked(t, f);
      forall p, q | 0 <= p < |before| <= q < |r|
        ensures r[p] != r[q]
      {
        assert r[p] in before && r[q] == t[n - 1];
        var k :| 0 <= k < n - 1 && f[..n - 1][k] && r[p] == t[..n - 1][k];
      }
    }
  }

  lemma {:induction false} PickedAll<T>(t: seq<T>, f: seq<bool>)
    requires |t| == |f| && NoDuplicates(t)
    ensures forall k :: 0 <= k < |t| ==> (t[k] in Picked(t, f) <==> f[k])
  {
    if t != [] {
      var n := |t|;
      var before := Picked(t[..n - 1], f[..n - 1]);
      var now := if f[n - 1] then [t[n - 1]] else [];
      PickedAll(t[..n - 1], f[..n - 1]);
      PickedFrom(t[..n - 1], f[..n - 1]);
      LastNotInPrefix(t);
      forall k | 0 <= k < n
        ensures t[k] in before + now <==> f[k]
      {
        if k < n - 1 {
          assert t[..n - 1][k] == t[k] && f[..n - 1][k] == f[k];
          assert t[k] != t[n - 1];
        } else {
          assert forall x :: x in before ==> x in t[..n - 1];
        }
      }
    }
  }

  /** How many iterations of the loop ran: all of them, or up to and
      including the first that failed. */
  function Ran(steps: seq<Step>): (m: nat)
    ensures m <= |steps|
    ensures Fold(steps).result.Ok? ==> m == |steps|
  {
    if steps == [] || Fold(steps[..|steps| - 1]).result.Ok? then |steps|
    else Ran(steps[..|steps| - 1])
  }

  lemma CreatesAsFlaggedPrefix(steps: seq<Step>, targets: seq<Action>, flags: seq<bool>)
    requires steps != [] && CreatesAsFlagged(steps, targets, flags)
    ensures var n := |steps|; CreatesAsFlagged(steps[..n - 1], targets[..n - 1], flags[..n - 1])
  {
  }

  /** The loop creates exactly the flagged targets of the iterations that ran. */
  lemma {:induction false} FoldCreatesPicked(steps: seq<Step>, targets: seq<Action>, flags: seq<bool>)
    requires CreatesAsFlagged(steps, targets, flags)
    ensures CreateCommands(Fold(steps).actions) == Picked(targets[..Ran(steps)], flags[..Ran(steps)])
  {
    if steps != [] {
      var n := |steps|;
      var init := steps[..n - 1];
      CreatesAsFlaggedPrefix(steps, targets, flags);
      FoldCreatesPicked(init, targets[..n - 1], flags[..n - 1]);
      CreatesPickedNext(steps, targets, flags);
    }
  }

  /** The step of FoldCreatesPicked. */
  lemma CreatesPickedNext(steps: seq<Step>, targets: seq<Action>, flags: seq<bool>)
    requires steps != [] && CreatesAsFlagged(steps, targets, flags)
    requires var n := |steps|; var init := steps[..n - 1];
      CreateCommands(Fold(init).actions) == Picked(targets[..n - 1][..Ran(init)], flags[..n - 1][..Ran(init)])
    ensures CreateCommands(Fold(steps).actions) == Picked(targets[..Ran(steps)], flags[..Ran(steps)])
  {
    var n := |steps|;
    if Fold(steps[..n - 1]).result.Ok? {
      assert CreateCommands(steps[n - 1].actions) == if flags[n - 1] then [targets[n - 1]] else [];
      CreatesPickedGotThrough(steps, targets, flags);
    } else {
      CreatesPickedStopped(steps, targets, flags);
    }
  }

  /** The step of FoldCreatesPicked after an iteration that got through. */
  lemma CreatesPickedGotThrough(steps: seq<Step>, targets: seq<Action>, flags: seq<bool>)
    requires steps != [] && |targets| == |steps| && |flags| == |steps|
    requires var n := |steps|; var init := steps[..n - 1];
      && Fold(init).result.Ok?
      && CreateCommands(Fold(init).actions) == Picked(targets[..n - 1][..Ran(init)], flags[..n - 1][..Ran(init)])
      && CreateCommands(steps[n - 1].actions) == if flags[n - 1] then [targets[n - 1]] else []
    ensures CreateCommands(Fold(steps).actions) == Picked(targets[..Ran(steps)], flags[..Ran(steps)])
  {
    var n := |steps|;
    assert Ran(steps[..n - 1]) == n - 1 && Ran(steps) == n;
    assert targets[..n - 1][..n - 1] == targets[..n - 1] && flags[..n - 1][..n - 1] == flags[..n - 1];
    CreatesPickedLast(steps, targets, flags);
    assert targets[..n] == targets && flags[..n] == flags;
  }

  /** The same, with the prefixes written out. */
  lemma CreatesPickedLast(steps: seq<Step>, targets: seq<Action>, flags: seq<bool>)
    requires steps != [] && |targets| == |steps| && |flags| == |steps|
    requires var n := |steps|; var init := steps[..n - 1];
      && Fold(init).result.Ok?
      && CreateCommands(Fold(init).actions) == Picked(targets[..n - 1], flags[..n - 1])
      && CreateCommands(steps[n - 1].actions) == if flags[n - 1] then [targets[n - 1]] else []
    ensures CreateCommands(Fold(steps).actions) == Picked(targets, flags)
  {
    var n := |steps|;
    var prev, last := Fold(steps[..n - 1]), steps[n - 1];
    assert Fold(steps).actions == prev.actions + last.actions;
    CreateCommandsAppend(prev.actions, last.actions);
  }

  /** The step of FoldCreatesPicked after an iteration that failed. */
  lemma CreatesPickedStopped(steps: seq<Step>, targets: seq<Action>, flags: seq<bool>)
    requires steps != [] && |targets| == |steps| && |flags| == |steps|
    requires var n := |steps|; var init := steps[..n - 1];
      Fold(init).result.Err?
      && CreateCommands(Fold(init).actions) == Picked(targets[..n - 1][..Ran(init)], flags[..n - 1][..Ran(init)])
    ensures CreateCommands(Fold(steps).actions) == Picked(targets[..Ran(steps)], flags[..Ran(steps)])
  {
    var n := |steps|;
    var m := Ran(steps[..n - 1]);
    assert Fold(steps) == Fold(steps[..n - 1]) && Ran(steps) == m;
    assert targets[..n - 1][..m] == targets[..m] && flags[..n - 1][..m] == flags[..m];
  }

  lemma LastNotInPrefix<T>(s: seq<T>)
    requires s != [] && NoDuplicates(s)
    ensures s[|s| - 1] !in s[..|s| - 1]
  {
    forall j | 0 <= j < |s| - 1
      ensures s[j] != s[|s| - 1]
    {
    }
  }

  /** With distinct targets, a loop whose iterations create as flagged
      creates each target at most once. */
  lemma FoldCreatesOnce(steps: seq<Step>, targets: seq<Action>, flags: seq<bool>)
    requires CreatesAsFlagged(steps, targets, flags) && NoDuplicates(targets)
    ensures NoDuplicates(CreateCommands(Fold(steps).actions))
  {
    var m := Ran(steps);
    FoldCreatesPicked(steps, targets, flags);
    assert NoDuplicates(targets[..m]);
    PickedOnce(targets[..m], flags[..m]);
  }

  /** Such a loop creates only targets of flagged iterations. */
  lemma FoldCreatesOnlyFlagged(steps: seq<Step>, targets: seq<Action>, flags: seq<bool>)
    requires CreatesAsFlagged(steps, targets, flags)
    ensures forall x :: x in CreateCommands(Fold(steps).actions) ==>
              exists k :: 0 <= k < |steps| && flags[k] && x == targets[k]
  {
    var m := Ran(steps);
    var tm, fm := targets[..m], flags[..m];
    FoldCreatesPicked(steps, targets, flags);
    PickedFrom(tm, fm);
    forall x | x in Picked(tm, fm)
      ensures exists k :: 0 <= k < |steps| && flags[k] && x == targets[k]
    {
      var k :| 0 <= k < m && fm[k] && x == tm[k];
    }
  }

  /** Such a loop that got through, with distinct targets, creates the
      target of every flagged iteration and no other. */
  lemma FoldCreatesAll(steps: seq<Step>, targets: seq<Action>, flags: seq<bool>)
    requires CreatesAsFlagged(steps, targets, flags) && NoDuplicates(targets)
    requires Fold(steps).result.Ok?
    ensures forall k :: 0 <= k < |steps| ==> (targets[k] in CreateCommands(Fold(steps).actions) <==> flags[k])
  {
    FoldCreatesPicked(steps, targets, flags);
    assert targets[..Ran(steps)] == targets && flags[..Ran(steps)] == flags;
    PickedAll(targets, flags);
  }
}
