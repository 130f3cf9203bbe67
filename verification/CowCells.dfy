/** Copy-on-write handles on counted cells, which must behave like independent values. */
module CowCells {

  /** What the handles share: a value and the number of handles on it. */
  class Cell<T> {
    var value: T
    var count: nat

    constructor (value: T)
      ensures this.value == value && count == 1
    {
      this.value, count := value, 1;
    }
  }

  /** The handles of a view that are on a cell. */
  ghost function Sharers<T>(view: map<Cow<T>, T>, cell: Cell<T>): set<Cow<T>>
    reads view.Keys
  {
    set c | c in view && c.data == cell
  }

  /**
    The live handles, seen as independent values: each is on one of the cells, shows its value of the
    view, and its cell counts exactly the live handles on it.
   */
  ghost predicate Shows<T>(cells: set<Cell<T>>, view: map<Cow<T>, T>)
    reads view.Keys, cells
  {
    forall c | c in view ::
      c.data in cells && c.data.value == view[c] && c.data.count == |Sharers(view, c.data)|
  }

  class Cow<T> {
    var data: Cell<T>

    constructor (val: T, ghost cells: set<Cell<T>>, ghost view: map<Cow<T>, T>)
      requires Shows(cells, view)
      ensures fresh(data) && Shows(cells + {data}, view[this := val])
    {
      data := new Cell(val);
      new;
      ghost var after := view[this := val];
      assert Sharers(after, data) == {this};
      assert forall c | c in view :: Sharers(after, c.data) == old(Sharers(view, c.data));
    }

    constructor Copy(other: Cow<T>, ghost cells: set<Cell<T>>, ghost view: map<Cow<T>, T>)
      requires Shows(cells, view) && other in view
      modifies other.data`count
      ensures data == other.data && Shows(cells, view[this := view[other]])
    {
      data := other.data;
      new;
      data.count := data.count + 1;
      ghost var after := view[this := view[other]];
      assert Sharers(after, data) == old(Sharers(view, other.data)) + {this};
      assert forall c | c in view && c.data != data :: Sharers(after, c.data) == old(Sharers(view, c.data));
    }

    method IsUnique(ghost cells: set<Cell<T>>, ghost view: map<Cow<T>, T>) returns (unique: bool)
      requires Shows(cells, view) && this in view
      ensures unique <==> Sharers(view, data) == {this}
    {
      unique := data.count == 1;
      SoleSharerIff(cells, view, this);
    }

    method UseCount(ghost cells: set<Cell<T>>, ghost view: map<Cow<T>, T>) returns (n: nat)
      requires Shows(cells, view) && this in view
      ensures n == |Sharers(view, data)|
    {
      n := data.count;
    }

    method Value(ghost cells: set<Cell<T>>, ghost view: map<Cow<T>, T>) returns (v: T)
      requires Shows(cells, view) && this in view
      ensures v == view[this]
    {
      v := data.value;
    }

    /** Moves this handle to a cell of its own holding the same value. */
    method Detach(ghost cells: set<Cell<T>>, ghost view: map<Cow<T>, T>) returns (ghost cellsAfter: set<Cell<T>>)
      requires Shows(cells, view) && this in view
      modifies this, data`count
      ensures fresh(data) && Sharers(view, data) == {this}
      ensures fresh(cellsAfter - cells)
      ensures Shows(cellsAfter, view)
    {
      ghost var mine := data;
      assert this in Sharers(view, mine);
      data.count := data.count - 1;
      data := new Cell(data.value);
      cellsAfter := cells + {data};
      assert Sharers(view, data) == {this};
      assert Sharers(view, mine) == old(Sharers(view, mine)) - {this};
      assert forall c | c in view && c != this && c.data != mine :: Sharers(view, c.data) == old(Sharers(view, c.data));
    }

    /** Changes the value through this handle alone. */
    method Edit(f: T -> T, ghost cells: set<Cell<T>>, ghost view: map<Cow<T>, T>)
      returns (ghost cellsAfter: set<Cell<T>>)
      requires Shows(cells, view) && this in view
      modifies this, data
      ensures Sharers(view, data) == {this} && fresh(cellsAfter - cells)
      ensures Shows(cellsAfter, view[this := f(view[this])])
    {
      var unique := IsUnique(cells, view);
      cellsAfter := cells;
      if !unique {
        cellsAfter := Detach(cells, view);
      }
      Overwrite(f(data.value), cellsAfter, view);
    }

    /** Writes the value of a cell no other handle shares. */
    method Overwrite(v: T, ghost cells: set<Cell<T>>, ghost view: map<Cow<T>, T>)
      requires Shows(cells, view) && this in view && Sharers(view, data) == {this}
      modifies data`value
      ensures Shows(cells, view[this := v])
    {
      assert forall c | c in view && c != this :: c !in Sharers(view, data);
      data.value := v;
      assert forall c | c in view :: Sharers(view[this := v], c.data) == old(Sharers(view, c.data));
    }

    /** Assigns a value, which is an edit. */
    method AssignValue(v: T, ghost cells: set<Cell<T>>, ghost view: map<Cow<T>, T>)
      returns (ghost cellsAfter: set<Cell<T>>)
      requires Shows(cells, view) && this in view
      modifies this, data
      ensures fresh(cellsAfter - cells)
      ensures Shows(cellsAfter, view[this := v])
    {
      cellsAfter := Edit(_ => v, cells, view);
    }

    /** Assigns another handle: both share its cell from then on. */
    method Assign(rhs: Cow<T>, ghost cells: set<Cell<T>>, ghost view: map<Cow<T>, T>)
      requires Shows(cells, view) && this in view && rhs in view
      modifies this, data`count, rhs.data`count
      ensures data == old(rhs.data) && Shows(cells, view[this := view[rhs]])
    {
      ghost var mine, theirs, after := data, rhs.data, view[this := view[rhs]];
      if data == rhs.data {
        assert after == view;
      } else {
        ghost var left, joined := Sharers(view, mine), Sharers(view, theirs);
        assert this in left && this !in joined;
        rhs.data.count := rhs.data.count + 1;
        data.count := data.count - 1;
        data := rhs.data;
        assert Sharers(after, theirs) == joined + {this};
        assert Sharers(after, mine) == left - {this};
        forall c | c in view && c.data != mine && c.data != theirs ensures c.data.count == |Sharers(after, c.data)| {
          assert Sharers(after, c.data) == old(Sharers(view, c.data));
        }
      }
    }

    /** The end of this handle's life. */
    method Drop(ghost cells: set<Cell<T>>, ghost view: map<Cow<T>, T>)
      requires Shows(cells, view) && this in view
      modifies data`count
      ensures Shows(cells, view - {this})
    {
      assert this in Sharers(view, data);
      data.count := data.count - 1;
      assert Sharers(view - {this}, data) == old(Sharers(view, data)) - {this};
      assert forall c | c in view && c.data != data :: Sharers(view - {this}, c.data) == old(Sharers(view, c.data));
    }
  }

  /** A cell counts one handle exactly when the handle is alone on it. */
  lemma {:induction false} SoleSharerIff<T>(cells: set<Cell<T>>, view: map<Cow<T>, T>, x: Cow<T>)
    requires Shows(cells, view) && x in view
    ensures x.data.count == 1 <==> Sharers(view, x.data) == {x}
  {
    var sharers := Sharers(view, x.data);
    assert x in sharers && |sharers - {x}| == |sharers| - 1;
    if x.data.count == 1 {
      assert sharers - {x} == {};
      assert sharers == {x};
    }
  }

  // ---------- runs of operations ----------

  datatype Op<!T> =
    | Make(id: nat, value: T)
    | CopyOf(id: nat, from: nat)
    | AssignFrom(id: nat, from: nat)
    | EditBy(id: nat, f: T -> T)
    | SetTo(id: nat, value: T)
    | DetachIt(id: nat)
    | Discard(id: nat)

  /** The operation can be carried out on handles of these names. */
  predicate Possible<T>(ids: set<nat>, op: Op<T>) {
    match op
    case Make(id, _) => id !in ids
    case CopyOf(id, from) => id !in ids && from in ids
    case AssignFrom(id, from) => id in ids && from in ids
    case _ => op.id in ids
  }

  /** What an operation does to independent values. */
  function Effect<T>(m: map<nat, T>, op: Op<T>): map<nat, T>
    requires Possible(m.Keys, op)
  {
    match op
    case Make(id, value) => m[id := value]
    case CopyOf(id, from) => m[id := m[from]]
    case AssignFrom(id, from) => m[id := m[from]]
    case EditBy(id, f) => m[id := f(m[id])]
    case SetTo(id, value) => m[id := value]
    case DetachIt(_) => m
    case Discard(id) => m - {id}
  }

  /** The independent values after a run; an impossible operation is passed over. */
  function Run<T>(ops: seq<Op<T>>): map<nat, T> {
    if ops == [] then map[]
    else
      var m := Run(ops[..|ops| - 1]);
      if Possible(m.Keys, ops[|ops| - 1]) then Effect(m, ops[|ops| - 1]) else m
  }

  /** The names stand for distinct handles, all those with a view, and their views are the given values. */
  ghost predicate Names<T>(handles: map<nat, Cow<T>>, view: map<Cow<T>, T>, m: map<nat, T>) {
    && handles.Keys == m.Keys && |handles| == |view|
    && (forall i | i in handles :: handles[i] in view && view[handles[i]] == m[i])
    && (forall i, j | i in handles && j in handles && i != j :: handles[i] != handles[j])
  }

  lemma {:induction false} NamesAdd<T>(
      handles: map<nat, Cow<T>>, view: map<Cow<T>, T>, m: map<nat, T>, id: nat, c: Cow<T>, value: T)
    requires Names(handles, view, m) && id !in handles && c !in view
    ensures Names(handles[id := c], view[c := value], m[id := value])
  {
  }

  lemma {:induction false} NamesChange<T>(
      handles: map<nat, Cow<T>>, view: map<Cow<T>, T>, m: map<nat, T>, id: nat, value: T)
    requires Names(handles, view, m) && id in handles
    ensures Names(handles, view[handles[id] := value], m[id := value])
  {
    assert view[handles[id] := value].Keys == view.Keys;
  }

  lemma {:induction false} NamesRemove<T>(handles: map<nat, Cow<T>>, view: map<Cow<T>, T>, m: map<nat, T>, id: nat)
    requires Names(handles, view, m) && id in handles
    ensures Names(handles - {id}, view - {handles[id]}, m - {id})
  {
    assert (handles - {id}).Keys == handles.Keys - {id};
    assert (view - {handles[id]}).Keys == view.Keys - {handles[id]};
  }

  /** Every handle with a view has a name. */
  lemma {:induction false} ViewedHandlesAreNamed<T>(
      handles: map<nat, Cow<T>>, view: map<Cow<T>, T>, m: map<nat, T>, c: Cow<T>)
    requires Names(handles, view, m) && c in view
    ensures c in handles.Values
    decreases |handles|
  {
    assert |handles.Keys| == |view.Keys| && view.Keys != {};
    var i :| i in handles;
    if handles[i] != c {
      NamesRemove(handles, view, m, i);
      ViewedHandlesAreNamed(handles - {i}, view - {handles[i]}, m - {i}, c);
      var j :| j in handles - {i} && (handles - {i})[j] == c;
      assert handles[j] == c;
    }
  }

  /** The handles of a run show its independent values, and every cell counts exactly the handles on it. */
  lemma {:induction false} NamedHandlesShow<T>(
      handles: map<nat, Cow<T>>, cells: set<Cell<T>>, view: map<Cow<T>, T>, m: map<nat, T>, i: nat)
    requires Names(handles, view, m) && Shows(cells, view) && i in handles
    ensures handles[i].data.value == m[i]
    ensures handles[i].data.count == |set c | c in handles.Values && c.data == handles[i].data|
  {
    forall c | c in view ensures c in handles.Values {
      ViewedHandlesAreNamed(handles, view, m, c);
    }
    assert (set c | c in handles.Values && c.data == handles[i].data) == Sharers(view, handles[i].data);
  }

  /** Carries out one operation on the handles. */
  method Perform<T>(
      op: Op<T>, handles: map<nat, Cow<T>>, ghost cells: set<Cell<T>>, ghost view: map<Cow<T>, T>, ghost m: map<nat, T>)
      returns (after: map<nat, Cow<T>>, ghost cellsAfter: set<Cell<T>>, ghost viewAfter: map<Cow<T>, T>)
    requires Possible(m.Keys, op) && Names(handles, view, m) && Shows(cells, view)
    modifies view.Keys, cells
    ensures fresh(viewAfter.Keys - view.Keys) && fresh(cellsAfter - cells)
    ensures Shows(cellsAfter, viewAfter)
    ensures Names(after, viewAfter, Effect(m, op))
  {
    after, cellsAfter, viewAfter := handles, cells, view;
    match op {
      case Make(id, value) =>
        after, cellsAfter, viewAfter := MakeHandle(id, value, handles, cells, view);
        NamesAdd(handles, view, m, id, after[id], value);
      case CopyOf(id, from) =>
        after, viewAfter := CopyHandle(id, from, handles, cells, view);
        NamesAdd(handles, view, m, id, after[id], m[from]);
      case AssignFrom(id, from) =>
        handles[id].Assign(handles[from], cells, view);
        viewAfter := view[handles[id] := view[handles[from]]];
        NamesChange(handles, view, m, id, m[from]);
      case Discard(id) =>
        handles[id].Drop(cells, view);
        after, viewAfter := handles - {id}, view - {handles[id]};
        NamesRemove(handles, view, m, id);
      case EditBy(id, f) =>
        cellsAfter := handles[id].Edit(f, cells, view);
        viewAfter := view[handles[id] := f(view[handles[id]])];
        NamesChange(handles, view, m, id, f(m[id]));
      case SetTo(id, value) =>
        cellsAfter := handles[id].AssignValue(value, cells, view);
        viewAfter := view[handles[id] := value];
        NamesChange(handles, view, m, id, value);
      case DetachIt(id) =>
        cellsAfter := handles[id].Detach(cells, view);
    }
  }

  method MakeHandle<T>(
      id: nat, value: T, handles: map<nat, Cow<T>>, ghost cells: set<Cell<T>>, ghost view: map<Cow<T>, T>)
      returns (after: map<nat, Cow<T>>, ghost cellsAfter: set<Cell<T>>, ghost viewAfter: map<Cow<T>, T>)
    requires Shows(cells, view)
    ensures id in after && after == handles[id := after[id]] && fresh(after[id])
    ensures viewAfter == view[after[id] := value]
    ensures fresh(cellsAfter - cells) && Shows(cellsAfter, viewAfter)
  {
    var cow := new Cow<T>(value, cells, view);
    after, cellsAfter, viewAfter := handles[id := cow], cells + {cow.data}, view[cow := value];
  }

  method CopyHandle<T>(
      id: nat, from: nat, handles: map<nat, Cow<T>>, ghost cells: set<Cell<T>>, ghost view: map<Cow<T>, T>)
      returns (after: map<nat, Cow<T>>, ghost viewAfter: map<Cow<T>, T>)
    requires Shows(cells, view) && from in handles && handles[from] in view
    modifies cells
    ensures id in after && after == handles[id := after[id]] && fresh(after[id])
    ensures viewAfter == view[after[id] := view[handles[from]]]
    ensures Shows(cells, viewAfter)
  {
    var cow := new Cow<T>.Copy(handles[from], cells, view);
    after, viewAfter := handles[id := cow], view[cow := view[handles[from]]];
  }

  /**
    Carries out a run of operations. The handles show what the same operations make of independent
    values, and every cell counts exactly the handles on it.
   */
  method Execute<T>(ops: seq<Op<T>>)
    returns (handles: map<nat, Cow<T>>, ghost cells: set<Cell<T>>, ghost view: map<Cow<T>, T>)
    ensures Shows(cells, view) && Names(handles, view, Run(ops))
    ensures handles.Keys == Run(ops).Keys
    ensures forall i | i in handles ::
              && handles[i].data.value == Run(ops)[i]
              && handles[i].data.count == |set c | c in handles.Values && c.data == handles[i].data|
  {
    handles, cells, view := map[], {}, map[];
    for i := 0 to |ops|
      invariant Shows(cells, view) && fresh(view.Keys) && fresh(cells)
      invariant Names(handles, view, Run(ops[..i]))
    {
      assert ops[..i + 1][..i] == ops[..i];
      if Possible(handles.Keys, ops[i]) {
        handles, cells, view := Perform(ops[i], handles, cells, view, Run(ops[..i]));
      }
    }
    assert ops[..|ops|] == ops;
    forall i | i in handles
      ensures handles[i].data.value == Run(ops)[i]
      ensures handles[i].data.count == |set c | c in handles.Values && c.data == handles[i].data|
    {
      NamedHandlesShow(handles, cells, view, Run(ops), i);
    }
  }
}
