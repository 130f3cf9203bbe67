/** The interpreter's stack of scopes, with the return cells its activations share. */
module FlowScopes {
  import opened Wrappers
  import opened FlowSemantics

  datatype ScopeType = Function | Loop | Local

  /** `returnCell` names the return value the scope shares with the rest of its activation. */
  datatype Scope = Scope(returnCell: nat, kind: ScopeType, policy: FlowControlPolicy, entries: seq<Entry>)

  // ---------- what a stack means ----------

  /** All bindings of a stack, oldest first. */
  ghost function Flatten(scopes: seq<Scope>): seq<Entry> {
    if scopes == [] then [] else Flatten(scopes[..|scopes| - 1]) + scopes[|scopes| - 1].entries
  }

  lemma {:induction false} FlattenPush(scopes: seq<Scope>, top: Scope)
    ensures Flatten(scopes + [top]) == Flatten(scopes) + top.entries
  {
    assert (scopes + [top])[..|scopes|] == scopes;
  }

  /** Searching a concatenation searches its later half first. */
  lemma {:induction false} LookupConcat(older: seq<Entry>, newer: seq<Entry>, name: string)
    ensures Lookup(older + newer, name) ==
            if Lookup(newer, name).Some? then Lookup(newer, name) else Lookup(older, name)
  {
    if newer == [] {
      assert older + newer == older;
    } else {
      assert (older + newer)[..|older + newer| - 1] == older + newer[..|newer| - 1];
      LookupConcat(older, newer[..|newer| - 1], name);
    }
  }

  /** The function scope whose activation scope `i` belongs to. */
  ghost function Activation(scopes: seq<Scope>, i: nat): nat
    requires i < |scopes|
  {
    if i == 0 || scopes[i].kind == Function then i else Activation(scopes, i - 1)
  }

  /** Blocks share the return cell of the scope below; a function scope takes a later cell than any before it. */
  ghost predicate Disciplined(scopes: seq<Scope>, cells: nat) {
    && 0 < |scopes|
    && var top, rest := scopes[|scopes| - 1], scopes[..|scopes| - 1];
    && top.returnCell < cells
    && if rest == [] then top.kind == Function
       else if top.kind == Function then Disciplined(rest, top.returnCell)
       else Disciplined(rest, cells) && top.returnCell == rest[|rest| - 1].returnCell
  }

  lemma {:induction false} MoreCells(scopes: seq<Scope>, cells: nat, more: nat)
    requires Disciplined(scopes, cells) && cells <= more
    ensures Disciplined(scopes, more)
  {
    if 1 < |scopes| && scopes[|scopes| - 1].kind != Function {
      MoreCells(scopes[..|scopes| - 1], cells, more);
    }
  }

  /** The same discipline, read off scope by scope. */
  lemma {:induction false} DisciplinePointwise(scopes: seq<Scope>, cells: nat)
    requires Disciplined(scopes, cells)
    ensures scopes[0].kind == Function
    ensures forall i :: 0 <= i < |scopes| ==> scopes[i].returnCell < cells
    ensures forall i :: 0 < i < |scopes| && scopes[i].kind != Function ==>
            scopes[i].returnCell == scopes[i - 1].returnCell
    ensures forall i, j :: 0 <= j < i < |scopes| && scopes[i].kind == Function ==>
            scopes[j].returnCell < scopes[i].returnCell
  {
    if 1 < |scopes| {
      var top, rest := scopes[|scopes| - 1], scopes[..|scopes| - 1];
      DisciplinePointwise(rest, if top.kind == Function then top.returnCell else cells);
      assert forall i :: 0 <= i < |rest| ==> scopes[i] == rest[i];
    }
  }

  /** Two scopes share a return cell exactly when they belong to the same activation. */
  lemma {:induction false} SharedCellIffSameActivation(scopes: seq<Scope>, cells: nat, i: nat, j: nat)
    requires Disciplined(scopes, cells) && i < |scopes| && j < |scopes|
    ensures scopes[i].returnCell == scopes[j].returnCell <==> Activation(scopes, i) == Activation(scopes, j)
  {
    DisciplinePointwise(scopes, cells);
    ActivationCell(scopes, cells, i);
    ActivationCell(scopes, cells, j);
  }

  lemma {:induction false} ActivationCell(scopes: seq<Scope>, cells: nat, i: nat)
    requires Disciplined(scopes, cells) && i < |scopes|
    ensures Activation(scopes, i) <= i
    ensures scopes[Activation(scopes, i)].kind == Function
    ensures scopes[i].returnCell == scopes[Activation(scopes, i)].returnCell
  {
    DisciplinePointwise(scopes, cells);
    if i != 0 && scopes[i].kind != Function {
      ActivationCell(scopes, cells, i - 1);
    }
  }

  /** What evaluating inside the top scope may do to a stack: add bindings on top and set the top policy. */
  ghost predicate OnlyTopChanged(before: seq<Scope>, after: seq<Scope>) {
    && 0 < |before| == |after|
    && var top := |before| - 1;
    && after[..top] == before[..top]
    && after[top].returnCell == before[top].returnCell
    && after[top].kind == before[top].kind
    && before[top].entries <= after[top].entries
  }

  /** Return cells are only added, and of the old ones only `cell` may be rewritten. */
  ghost predicate OnlyCellChanged(before: seq<Option<Value>>, after: seq<Option<Value>>, cell: nat) {
    && |before| <= |after|
    && forall i :: 0 <= i < |before| && i != cell ==> after[i] == before[i]
  }

  /** A signal leaves Local and Loop scopes, Break included, and is absorbed by a Function scope. */
  function Popped(scopes: seq<Scope>): seq<Scope>
    requires 1 < |scopes|
  {
    var top, rest := scopes[|scopes| - 1], scopes[..|scopes| - 1];
    var below := rest[|rest| - 1];
    if top.policy == Stay || top.kind == Function then rest
    else rest[|rest| - 1 := below.(policy := top.policy)]
  }

  lemma {:induction false} PoppedKeepsDiscipline(scopes: seq<Scope>, cells: nat)
    requires Disciplined(scopes, cells) && 1 < |scopes|
    ensures Disciplined(Popped(scopes), cells)
    ensures Flatten(Popped(scopes)) == Flatten(scopes[..|scopes| - 1])
  {
    var top, rest, popped := scopes[|scopes| - 1], scopes[..|scopes| - 1], Popped(scopes);
    if top.kind == Function {
      MoreCells(rest, top.returnCell, cells);
    }
    assert popped[..|rest| - 1] == rest[..|rest| - 1];
  }

  /** What the evaluation inside the top scope can see of a stack and its return cells. */
  datatype View = View(env: seq<Entry>, base: nat, policy: FlowControlPolicy, result: Option<Value>)

  ghost function ViewOf(scopes: seq<Scope>, cells: seq<Option<Value>>): View
    requires Disciplined(scopes, |cells|)
  {
    var top := scopes[|scopes| - 1];
    View(Flatten(scopes), |Flatten(scopes[..|scopes| - 1])|, top.policy, cells[top.returnCell])
  }

  lemma {:induction false} TopEntries(scopes: seq<Scope>, cells: seq<Option<Value>>)
    requires Disciplined(scopes, |cells|)
    ensures var v := ViewOf(scopes, cells); v.base <= |v.env| && v.env[v.base..] == scopes[|scopes| - 1].entries
  {
    var below := Flatten(scopes[..|scopes| - 1]);
    assert (below + scopes[|scopes| - 1].entries)[|below|..] == scopes[|scopes| - 1].entries;
  }

  /** Leaving a block takes its bindings away and forwards its signal; everything else below is as before. */
  lemma {:induction false} LeaveBlock(
      before: seq<Scope>, cells: seq<Option<Value>>, kind: ScopeType, inner: seq<Scope>, innerCells: seq<Option<Value>>)
    requires Disciplined(before, |cells|) && Disciplined(inner, |innerCells|) && kind != Function
    requires OnlyTopChanged(before + [Scope(before[|before| - 1].returnCell, kind, Stay, [])], inner)
    ensures Disciplined(Popped(inner), |innerCells|) && OnlyTopChanged(before, Popped(inner))
    ensures Popped(inner)[|before| - 1].entries == before[|before| - 1].entries
    ensures ViewOf(Popped(inner), innerCells) ==
            var v := ViewOf(inner, innerCells);
            ViewOf(before, cells).(policy := Forward(before[|before| - 1].policy, v.policy), result := v.result)
  {
    PoppedKeepsDiscipline(inner, |innerCells|);
    var pushed := before + [Scope(before[|before| - 1].returnCell, kind, Stay, [])];
    assert inner[..|before|] == pushed[..|before|] == before;
    assert Popped(inner)[..|before| - 1] == before[..|before| - 1];
  }

  /** Leaving an activation restores the caller's stack exactly, whatever signal it ended with. */
  lemma {:induction false} LeaveActivation(before: seq<Scope>, cell: nat, inner: seq<Scope>, cells: nat)
    requires 0 < |before| && Disciplined(inner, cells)
    requires OnlyTopChanged(before + [Scope(cell, Function, Stay, [])], inner)
    ensures Popped(inner) == before
  {
    assert inner[..|before|] == (before + [Scope(cell, Function, Stay, [])])[..|before|] == before;
  }

  class EvaluationScope {
    var scopes: seq<Scope>
    var returnCells: seq<Option<Value>>

    ghost predicate Valid()
      reads this
    {
      Disciplined(scopes, |returnCells|)
    }

    ghost function Visible(): View
      requires Valid()
      reads this
    {
      ViewOf(scopes, returnCells)
    }

    function Current(): Scope
      requires |scopes| > 0
      reads this
    {
      scopes[|scopes| - 1]
    }

    constructor ()
      ensures Valid()
      ensures scopes == [Scope(0, Function, Stay, [])] && returnCells == [None]
      ensures Visible() == View([], 0, Stay, None)
    {
      scopes := [Scope(0, Function, Stay, [])];
      returnCells := [None];
      new;
      assert scopes[..0] == [];
    }

    method SetCurrent(top: Scope)
      requires Valid()
      requires top.returnCell == Current().returnCell && top.kind == Current().kind
      modifies this`scopes
      ensures Valid() && scopes == old(scopes)[|old(scopes)| - 1 := top]
      ensures scopes[..|scopes| - 1] == old(scopes)[..|scopes| - 1]
      ensures Flatten(scopes) == Flatten(old(scopes)[..|scopes| - 1]) + top.entries
    {
      scopes := scopes[|scopes| - 1 := top];
    }

    method ReturnValue(v: Value)
      requires Valid()
      modifies this
      ensures Valid() && OnlyTopChanged(old(scopes), scopes)
      ensures returnCells == old(returnCells)[old(Current()).returnCell := Some(v)]
      ensures Visible() == old(Visible()).(policy := Return, result := Some(v))
    {
      returnCells := returnCells[Current().returnCell := Some(v)];
      SetCurrent(Current().(policy := Return));
    }

    method BreakLoop()
      requires Valid()
      modifies this`scopes
      ensures Valid() && OnlyTopChanged(old(scopes), scopes)
      ensures Visible() == old(Visible()).(policy := Break)
    {
      SetCurrent(Current().(policy := Break));
    }

    method Add(name: string, v: Value)
      requires Valid()
      modifies this`scopes
      ensures Valid() && OnlyTopChanged(old(scopes), scopes)
      ensures Visible() == old(Visible()).(env := old(Visible()).env + [Entry(name, v)])
    {
      ghost var below := Flatten(scopes[..|scopes| - 1]);
      assert below + (Current().entries + [Entry(name, v)]) == (below + Current().entries) + [Entry(name, v)];
      SetCurrent(Current().(entries := Current().entries + [Entry(name, v)]));
    }

    method Push(kind: ScopeType)
      requires Valid()
      modifies this
      ensures Valid()
      ensures kind == Function ==>
                && scopes == old(scopes) + [Scope(|old(returnCells)|, Function, Stay, [])]
                && returnCells == old(returnCells) + [None]
                && Visible() == View(old(Visible()).env, |old(Visible()).env|, Stay, None)
      ensures kind != Function ==>
                && scopes == old(scopes) + [Scope(old(Current()).returnCell, kind, Stay, [])]
                && returnCells == old(returnCells)
                && Visible() == old(Visible()).(base := |old(Visible()).env|, policy := Stay)
    {
      ghost var before := scopes;
      if kind == Function {
        FlattenPush(scopes, Scope(|returnCells|, Function, Stay, []));
        scopes := scopes + [Scope(|returnCells|, Function, Stay, [])];
        returnCells := returnCells + [None];
      } else {
        FlattenPush(scopes, Scope(Current().returnCell, kind, Stay, []));
        scopes := scopes + [Scope(Current().returnCell, kind, Stay, [])];
      }
      assert scopes[..|scopes| - 1] == before;
    }

    method Pop()
      requires Valid() && 1 < |scopes|
      modifies this`scopes
      ensures Valid() && scopes == Popped(old(scopes))
    {
      PoppedKeepsDiscipline(scopes, |returnCells|);
      var kind, policy := Current().kind, Current().policy;
      scopes := scopes[..|scopes| - 1];
      if policy == Stay {
        return;
      }
      if policy == Return && kind == Loop {
        scopes := scopes[|scopes| - 1 := Current().(policy := Return)];
      } else if policy == Return && kind == Local {
        scopes := scopes[|scopes| - 1 := Current().(policy := Return)];
      } else if policy == Break && kind == Loop {
        scopes := scopes[|scopes| - 1 := Current().(policy := Break)];
      } else if policy == Break && kind == Local {
        scopes := scopes[|scopes| - 1 := Current().(policy := Break)];
      }
    }

    /** Searches every scope from the top down, the callers' included: scoping is dynamic. */
    method FindEntity(name: string) returns (found: Option<Value>)
      requires Valid()
      ensures found == Lookup(Visible().env, name)
    {
      var i := |scopes|;
      assert scopes[..i] == scopes;
      while i > 0
        invariant 0 <= i <= |scopes|
        invariant Lookup(Flatten(scopes), name) == Lookup(Flatten(scopes[..i]), name)
      {
        i := i - 1;
        assert scopes[..i + 1] == scopes[..i] + [scopes[i]];
        FlattenPush(scopes[..i], scopes[i]);
        LookupConcat(Flatten(scopes[..i]), scopes[i].entries, name);
        var entry := FindIn(scopes[i].entries, name);
        if entry.Some? {
          return entry;
        }
      }
      return None;
    }

    /** Searches the top scope only. */
    method FindInCurrent(name: string) returns (found: Option<Value>)
      requires Valid()
      ensures found == Lookup(Visible().env[Visible().base..], name)
      ensures Visible().base <= |Visible().env|
    {
      TopEntries(scopes, returnCells);
      found := FindIn(Current().entries, name);
    }
  }

  /** One scope's latest entry of a name. */
  method FindIn(entries: seq<Entry>, name: string) returns (found: Option<Value>)
    ensures found == Lookup(entries, name)
  {
    var i := |entries|;
    assert entries[..i] == entries;
    while i > 0
      invariant 0 <= i <= |entries|
      invariant Lookup(entries, name) == Lookup(entries[..i], name)
    {
      i := i - 1;
      assert entries[..i + 1][..i] == entries[..i];
      if entries[i].name == name {
        return Some(entries[i].value);
      }
    }
    return None;
  }
}
