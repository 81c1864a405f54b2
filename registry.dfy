/** The registry a bus keeps in `_events`: for each event name, in the order
    the names were first registered, the ordered list of its bindings. The
    base `Events` class that adds and removes bindings is not part of this
    model; its effect is specified here as appending a binding, removing the
    bindings that match a filter, and a `once` binding removing itself. */
module EventRegistry {
  import opened Values

  datatype Entry = Entry(name: string, bindings: seq<Binding>)

  type Registry = seq<Entry>

  /** No name is listed twice and no name is left with an empty list. */
  predicate Valid(reg: Registry) {
    && (forall i, j :: 0 <= i < j < |reg| ==> reg[i].name != reg[j].name)
    && (forall i :: 0 <= i < |reg| ==> reg[i].bindings != [])
  }

  /** `_events[name]`: the bindings of `name`, if the name is present. */
  function Get(reg: Registry, name: string): Option<seq<Binding>> {
    if reg == [] then None
    else if reg[0].name == name then Some(reg[0].bindings)
    else Get(reg[1..], name)
  }

  /** The bindings of `name`, empty when the name is absent. */
  function Bindings(reg: Registry, name: string): seq<Binding> {
    Get(reg, name).GetOr([])
  }

  /** `Object.keys(_events)`: the names in registration order. */
  function Names(reg: Registry): seq<string> {
    seq(|reg|, i requires 0 <= i < |reg| => reg[i].name)
  }

  /** The sum of the per-name list lengths. */
  function CountOf(reg: Registry): nat {
    if reg == [] then 0 else |reg[0].bindings| + CountOf(reg[1..])
  }

  /** What `forEachEvent` hands its visitor for one binding. */
  datatype Visit = Visit(name: string, callback: CallbackId, ctx: Option<ContextId>)

  function EntryVisits(e: Entry): seq<Visit> {
    seq(|e.bindings|, j requires 0 <= j < |e.bindings| => Visit(e.name, e.bindings[j].callback, e.bindings[j].ctx))
  }

  /** All visits: name by name, and within a name in binding order. */
  function Visits(reg: Registry): seq<Visit> {
    if reg == [] then [] else EntryVisits(reg[0]) + Visits(reg[1..])
  }

  /** Appends `b` to the list of `name`, creating the name at the end if absent. */
  function Add(reg: Registry, name: string, b: Binding): Registry {
    if reg == [] then [Entry(name, [b])]
    else if reg[0].name == name then [Entry(name, reg[0].bindings + [b])] + reg[1..]
    else [reg[0]] + Add(reg[1..], name, b)
  }

  /** Appends each (name, binding) pair in order. */
  function AddEach(reg: Registry, adds: seq<(string, Binding)>): Registry
    decreases |adds|
  {
    if adds == [] then reg else AddEach(Add(reg, adds[0].0, adds[0].1), adds[1..])
  }

  /** Which bindings a removal applies to; an absent field matches anything. */
  datatype Filter = Filter(name: Option<string>, callback: Option<CallbackId>, ctx: Option<ContextId>, owner: Option<object>)

  predicate Matches(f: Filter, name: string, b: Binding) {
    && (f.name.None? || f.name.value == name)
    && (f.callback.None? || f.callback.value == b.callback)
    && (f.ctx.None? || b.ctx == f.ctx)
    && (f.owner.None? || b.owner == f.owner)
  }

  /** The bindings of one list that a filter leaves in place. */
  function Keep(bs: seq<Binding>, f: Filter, name: string): seq<Binding> {
    if bs == [] then []
    else (if Matches(f, name, bs[0]) then [] else [bs[0]]) + Keep(bs[1..], f, name)
  }

  /** Removes every matching binding and every name left without bindings. */
  function RemoveWhere(reg: Registry, f: Filter): Registry {
    if reg == [] then []
    else
      var kept := Keep(reg[0].bindings, f, reg[0].name);
      (if kept == [] then [] else [Entry(reg[0].name, kept)]) + RemoveWhere(reg[1..], f)
  }

  /** Applies several removals in order. */
  function RemoveEach(reg: Registry, fs: seq<Filter>): Registry
    decreases |fs|
  {
    if fs == [] then reg else RemoveEach(RemoveWhere(reg, fs[0]), fs[1..])
  }

  /** How many bindings of one list a filter matches. */
  function MatchCount(bs: seq<Binding>, f: Filter, name: string): nat {
    if bs == [] then 0 else (if Matches(f, name, bs[0]) then 1 else 0) + MatchCount(bs[1..], f, name)
  }

  /** How many bindings a filter matches. */
  function Matching(reg: Registry, f: Filter): nat {
    if reg == [] then 0 else MatchCount(reg[0].bindings, f, reg[0].name) + Matching(reg[1..], f)
  }

  function RemoveFirst(bs: seq<Binding>, b: Binding): seq<Binding> {
    if bs == [] then []
    else if bs[0] == b then bs[1..]
    else [bs[0]] + RemoveFirst(bs[1..], b)
  }

  /** A `once` binding taking itself off the list `name` before it runs. */
  function RemoveOne(reg: Registry, name: string, b: Binding): Registry {
    if reg == [] then []
    else if reg[0].name == name then
      var rest := RemoveFirst(reg[0].bindings, b);
      (if rest == [] then [] else [Entry(name, rest)]) + reg[1..]
    else [reg[0]] + RemoveOne(reg[1..], name, b)
  }

  // ---------------------------------------------------------------------
  // Lookup and names

  lemma {:induction false} GetIsIndexed(reg: Registry, name: string)
    ensures Get(reg, name).Some? <==> name in Names(reg)
    ensures Get(reg, name).Some? ==> exists i :: 0 <= i < |reg| && reg[i].name == name && Get(reg, name).value == reg[i].bindings
  {
    if reg != [] {
      GetIsIndexed(reg[1..], name);
      assert Names(reg) == [reg[0].name] + Names(reg[1..]);
      if reg[0].name != name && Get(reg, name).Some? {
        var i :| 0 <= i < |reg[1..]| && reg[1..][i].name == name && Get(reg[1..], name).value == reg[1..][i].bindings;
        assert reg[i + 1].name == name;
      }
    }
  }

  /** In a valid registry every listed name has a non-empty list. */
  lemma GetNonEmpty(reg: Registry, name: string)
    requires Valid(reg)
    ensures Get(reg, name).Some? ==> Get(reg, name).value != []
  {
    GetIsIndexed(reg, name);
  }

  lemma {:induction false} ValidTail(reg: Registry)
    requires Valid(reg) && reg != []
    ensures Valid(reg[1..])
    ensures reg[0].name !in Names(reg[1..])
  {
    forall k | 0 <= k < |reg| - 1 ensures Names(reg[1..])[k] != reg[0].name {
      assert Names(reg[1..])[k] == reg[k + 1].name;
    }
  }

  lemma {:induction false} ValidCons(e: Entry, reg: Registry)
    requires Valid(reg) && e.bindings != [] && e.name !in Names(reg)
    ensures Valid([e] + reg)
  {
    var r := [e] + reg;
    forall i, j | 0 <= i < j < |r| ensures r[i].name != r[j].name {
      if i == 0 { assert r[j].name == Names(reg)[j - 1]; }
    }
  }

  // ---------------------------------------------------------------------
  // Add

  /** `Add` appends to the one list it names and leaves the others alone. */
  lemma {:induction false} AddBindings(reg: Registry, name: string, b: Binding, other: string)
    ensures Bindings(Add(reg, name, b), other) == if other == name then Bindings(reg, name) + [b] else Bindings(reg, other)
  {
    var r := Add(reg, name, b);
    if reg == [] {
      assert r == [Entry(name, [b])];
      if other != name { assert Get(r, other) == Get(r[1..], other); }
    } else if reg[0].name == name {
      assert r[0] == Entry(name, reg[0].bindings + [b]) && r[1..] == reg[1..];
      if other != name { assert Get(r, other) == Get(r[1..], other); }
    } else {
      AddBindings(reg[1..], name, b, other);
      assert r[0] == reg[0] && r[1..] == Add(reg[1..], name, b);
      if reg[0].name != other {
        assert Get(r, other) == Get(r[1..], other);
      }
    }
  }

  /** A name is added at the end the first time it is seen, never moved. */
  lemma {:induction false} AddNames(reg: Registry, name: string, b: Binding)
    ensures Names(Add(reg, name, b)) == if name in Names(reg) then Names(reg) else Names(reg) + [name]
  {
    if reg != [] {
      AddNames(reg[1..], name, b);
      assert Names(reg) == [reg[0].name] + Names(reg[1..]);
      var r := Add(reg, name, b);
      assert Names(r) == [r[0].name] + Names(r[1..]);
      if reg[0].name == name {
        assert r[1..] == reg[1..];
      } else {
        assert r[1..] == Add(reg[1..], name, b);
      }
    }
  }

  lemma {:induction false} AddCount(reg: Registry, name: string, b: Binding)
    ensures CountOf(Add(reg, name, b)) == CountOf(reg) + 1
  {
    if reg != [] {
      var r := Add(reg, name, b);
      if reg[0].name == name {
        assert r[1..] == reg[1..];
      } else {
        AddCount(reg[1..], name, b);
        assert r[1..] == Add(reg[1..], name, b);
      }
    }
  }

  lemma {:induction false} AddValid(reg: Registry, name: string, b: Binding)
    requires Valid(reg)
    ensures Valid(Add(reg, name, b))
  {
    AddNames(reg, name, b);
    var r := Add(reg, name, b);
    if reg != [] {
      ValidTail(reg);
      if reg[0].name == name {
        assert r == [Entry(name, reg[0].bindings + [b])] + reg[1..];
        ValidCons(Entry(name, reg[0].bindings + [b]), reg[1..]);
      } else {
        AddValid(reg[1..], name, b);
        AddNames(reg[1..], name, b);
        assert r == [reg[0]] + Add(reg[1..], name, b);
        ValidCons(reg[0], Add(reg[1..], name, b));
      }
    }
  }

  lemma {:induction false} AddEachValid(reg: Registry, adds: seq<(string, Binding)>)
    requires Valid(reg)
    ensures Valid(AddEach(reg, adds))
    decreases |adds|
  {
    if adds != [] {
      AddValid(reg, adds[0].0, adds[0].1);
      AddEachValid(Add(reg, adds[0].0, adds[0].1), adds[1..]);
    }
  }

  /** Registering k bindings raises the count by exactly k. */
  lemma {:induction false} AddEachCount(reg: Registry, adds: seq<(string, Binding)>)
    ensures CountOf(AddEach(reg, adds)) == CountOf(reg) + |adds|
    decreases |adds|
  {
    if adds != [] {
      AddCount(reg, adds[0].0, adds[0].1);
      AddEachCount(Add(reg, adds[0].0, adds[0].1), adds[1..]);
    }
  }

  // ---------------------------------------------------------------------
  // Removal by filter

  lemma {:induction false} KeepMembers(bs: seq<Binding>, f: Filter, name: string)
    ensures forall b :: b in Keep(bs, f, name) <==> b in bs && !Matches(f, name, b)
    ensures |Keep(bs, f, name)| <= |bs|
  {
    if bs != [] {
      KeepMembers(bs[1..], f, name);
      assert bs == [bs[0]] + bs[1..];
    }
  }

  /** A filter that matches nothing of a list keeps the whole list. */
  lemma {:induction false} KeepNoMatch(bs: seq<Binding>, f: Filter, name: string)
    requires forall b :: b in bs ==> !Matches(f, name, b)
    ensures Keep(bs, f, name) == bs
  {
    if bs != [] {
      KeepNoMatch(bs[1..], f, name);
      assert bs == [bs[0]] + bs[1..];
    }
  }

  lemma {:induction false} RemoveWhereNames(reg: Registry, f: Filter)
    ensures forall n :: n in Names(RemoveWhere(reg, f)) ==> n in Names(reg)
  {
    if reg != [] {
      RemoveWhereNames(reg[1..], f);
      assert Names(reg) == [reg[0].name] + Names(reg[1..]);
      var kept := Keep(reg[0].bindings, f, reg[0].name);
      var head := if kept == [] then [] else [Entry(reg[0].name, kept)];
      assert Names(head + RemoveWhere(reg[1..], f)) == Names(head) + Names(RemoveWhere(reg[1..], f));
    }
  }

  lemma {:induction false} RemoveWhereValid(reg: Registry, f: Filter)
    requires Valid(reg)
    ensures Valid(RemoveWhere(reg, f))
  {
    if reg != [] {
      ValidTail(reg);
      RemoveWhereValid(reg[1..], f);
      RemoveWhereNames(reg[1..], f);
      var kept := Keep(reg[0].bindings, f, reg[0].name);
      if kept != [] {
        ValidCons(Entry(reg[0].name, kept), RemoveWhere(reg[1..], f));
      }
    }
  }

  /** After a removal each list holds exactly the bindings the filter spares,
      in their old order. */
  lemma {:induction false} RemoveWhereBindings(reg: Registry, f: Filter, name: string)
    requires Valid(reg)
    ensures Bindings(RemoveWhere(reg, f), name) == Keep(Bindings(reg, name), f, name)
  {
    if reg != [] {
      ValidTail(reg);
      RemoveWhereBindings(reg[1..], f, name);
      var kept := Keep(reg[0].bindings, f, reg[0].name);
      var rest := RemoveWhere(reg[1..], f);
      if reg[0].name == name {
        GetIsIndexed(reg[1..], name);
        RemoveWhereNames(reg[1..], f);
        GetIsIndexed(rest, name);
        if kept != [] {
          assert RemoveWhere(reg, f) == [Entry(name, kept)] + rest;
        } else {
          assert RemoveWhere(reg, f) == rest;
        }
      } else if kept != [] {
        assert RemoveWhere(reg, f) == [Entry(reg[0].name, kept)] + rest;
      } else {
        assert RemoveWhere(reg, f) == rest;
      }
    }
  }

  /** A removal lowers the count by exactly the number of bindings it matches. */
  lemma {:induction false} KeepCount(bs: seq<Binding>, f: Filter, name: string)
    ensures |Keep(bs, f, name)| + MatchCount(bs, f, name) == |bs|
  {
    if bs != [] { KeepCount(bs[1..], f, name); }
  }

  lemma {:induction false} RemoveWhereCount(reg: Registry, f: Filter)
    ensures CountOf(RemoveWhere(reg, f)) + Matching(reg, f) == CountOf(reg)
  {
    if reg != [] {
      RemoveWhereCount(reg[1..], f);
      KeepCount(reg[0].bindings, f, reg[0].name);
      var kept := Keep(reg[0].bindings, f, reg[0].name);
      if kept != [] {
        assert RemoveWhere(reg, f) == [Entry(reg[0].name, kept)] + RemoveWhere(reg[1..], f);
      } else {
        assert RemoveWhere(reg, f) == RemoveWhere(reg[1..], f);
      }
    }
  }

  /** A filter that matches no binding leaves a valid registry as it is. */
  lemma {:induction false} RemoveWhereNoMatch(reg: Registry, f: Filter)
    requires Valid(reg)
    requires forall i, j :: 0 <= i < |reg| && 0 <= j < |reg[i].bindings| ==> !Matches(f, reg[i].name, reg[i].bindings[j])
    ensures RemoveWhere(reg, f) == reg
  {
    if reg != [] {
      ValidTail(reg);
      forall b | b in reg[0].bindings ensures !Matches(f, reg[0].name, b) {
        var j :| 0 <= j < |reg[0].bindings| && reg[0].bindings[j] == b;
      }
      KeepNoMatch(reg[0].bindings, f, reg[0].name);
      var tail := reg[1..];
      forall i, j | 0 <= i < |tail| && 0 <= j < |tail[i].bindings| ensures !Matches(f, tail[i].name, tail[i].bindings[j]) {
        assert tail[i] == reg[i + 1];
      }
      RemoveWhereNoMatch(tail, f);
      assert reg == [reg[0]] + tail;
    }
  }

  lemma {:induction false} KeepAppendMatch(bs: seq<Binding>, b: Binding, f: Filter, name: string)
    requires Matches(f, name, b)
    ensures Keep(bs + [b], f, name) == Keep(bs, f, name)
  {
    if bs == [] {
      assert [b][1..] == [];
    } else {
      assert (bs + [b])[1..] == bs[1..] + [b];
      KeepAppendMatch(bs[1..], b, f, name);
    }
  }

  /** Removing by a filter undoes the addition of a binding it matches. */
  lemma {:induction false} RemoveWhereAdd(reg: Registry, name: string, b: Binding, f: Filter)
    requires Matches(f, name, b)
    ensures RemoveWhere(Add(reg, name, b), f) == RemoveWhere(reg, f)
  {
    if reg == [] {
      assert [b][1..] == [];
      assert Keep([b], f, name) == [];
    } else if reg[0].name == name {
      KeepAppendMatch(reg[0].bindings, b, f, name);
    } else {
      RemoveWhereAdd(reg[1..], name, b, f);
      assert Add(reg, name, b)[1..] == Add(reg[1..], name, b);
    }
  }

  lemma {:induction false} RemoveWhereAddEach(reg: Registry, adds: seq<(string, Binding)>, f: Filter)
    requires forall k :: 0 <= k < |adds| ==> Matches(f, adds[k].0, adds[k].1)
    ensures RemoveWhere(AddEach(reg, adds), f) == RemoveWhere(reg, f)
    decreases |adds|
  {
    if adds != [] {
      var rest := adds[1..];
      forall k | 0 <= k < |rest| ensures Matches(f, rest[k].0, rest[k].1) { assert rest[k] == adds[k + 1]; }
      RemoveWhereAddEach(Add(reg, adds[0].0, adds[0].1), rest, f);
      RemoveWhereAdd(reg, adds[0].0, adds[0].1, f);
    }
  }

  lemma {:induction false} RemoveEachValid(reg: Registry, fs: seq<Filter>)
    requires Valid(reg)
    ensures Valid(RemoveEach(reg, fs))
    decreases |fs|
  {
    if fs != [] {
      RemoveWhereValid(reg, fs[0]);
      RemoveEachValid(RemoveWhere(reg, fs[0]), fs[1..]);
    }
  }

  // ---------------------------------------------------------------------
  // A once binding removing itself

  lemma {:induction false} RemoveFirstShape(bs: seq<Binding>, b: Binding)
    ensures b in bs ==> |RemoveFirst(bs, b)| == |bs| - 1
    ensures b !in bs ==> RemoveFirst(bs, b) == bs
    ensures forall x :: x in RemoveFirst(bs, b) ==> x in bs
  {
    if bs != [] {
      RemoveFirstShape(bs[1..], b);
      assert bs == [bs[0]] + bs[1..];
    }
  }

  lemma {:induction false} RemoveOneBindings(reg: Registry, name: string, b: Binding, other: string)
    requires Valid(reg)
    ensures Bindings(RemoveOne(reg, name, b), other) == if other == name then RemoveFirst(Bindings(reg, name), b) else Bindings(reg, other)
  {
    if reg != [] {
      ValidTail(reg);
      var r := RemoveOne(reg, name, b);
      if reg[0].name == name {
        var rest := RemoveFirst(reg[0].bindings, b);
        GetIsIndexed(reg[1..], name);
        if rest == [] { assert r == reg[1..]; } else { assert r[1..] == reg[1..]; }
      } else {
        RemoveOneBindings(reg[1..], name, b, other);
        assert r == [reg[0]] + RemoveOne(reg[1..], name, b);
      }
    }
  }

  lemma {:induction false} RemoveOneNames(reg: Registry, name: string, b: Binding)
    ensures forall n :: n in Names(RemoveOne(reg, name, b)) ==> n in Names(reg)
  {
    if reg != [] {
      RemoveOneNames(reg[1..], name, b);
      assert Names(reg) == [reg[0].name] + Names(reg[1..]);
      var r := RemoveOne(reg, name, b);
      if reg[0].name == name {
        var rest := RemoveFirst(reg[0].bindings, b);
        if rest == [] { assert r == reg[1..]; } else { assert Names(r) == [name] + Names(reg[1..]); }
      } else {
        assert Names(r) == [reg[0].name] + Names(RemoveOne(reg[1..], name, b));
      }
    }
  }

  lemma {:induction false} RemoveOneValid(reg: Registry, name: string, b: Binding)
    requires Valid(reg)
    ensures Valid(RemoveOne(reg, name, b))
  {
    if reg != [] {
      ValidTail(reg);
      if reg[0].name == name {
        var rest := RemoveFirst(reg[0].bindings, b);
        if rest != [] { ValidCons(Entry(name, rest), reg[1..]); }
      } else {
        RemoveOneValid(reg[1..], name, b);
        RemoveOneNames(reg[1..], name, b);
        ValidCons(reg[0], RemoveOne(reg[1..], name, b));
      }
    }
  }

  /** A `once` binding taking itself off a name it alone was registered
      under restores the registry to what it was before the registration. */
  lemma {:induction false} RemoveOneAdd(reg: Registry, name: string, b: Binding)
    requires Get(reg, name).None?
    ensures RemoveOne(Add(reg, name, b), name, b) == reg
  {
    if reg == [] {
      assert [b][1..] == [];
    } else {
      RemoveOneAdd(reg[1..], name, b);
      assert Add(reg, name, b) == [reg[0]] + Add(reg[1..], name, b);
    }
  }

  /** A binding present in its list takes exactly one off the count; an
      absent one changes nothing. */
  lemma {:induction false} RemoveOneCount(reg: Registry, name: string, b: Binding)
    requires Valid(reg)
    ensures b in Bindings(reg, name) ==> CountOf(RemoveOne(reg, name, b)) == CountOf(reg) - 1
    ensures b !in Bindings(reg, name) ==> RemoveOne(reg, name, b) == reg
  {
    if reg != [] {
      ValidTail(reg);
      RemoveOneCount(reg[1..], name, b);
      var r := RemoveOne(reg, name, b);
      if reg[0].name == name {
        RemoveFirstShape(reg[0].bindings, b);
        var rest := RemoveFirst(reg[0].bindings, b);
        if rest == [] { assert r == reg[1..]; } else { assert r[1..] == reg[1..]; }
        if b !in reg[0].bindings { assert r == [reg[0]] + reg[1..]; }
      } else {
        assert r == [reg[0]] + RemoveOne(reg[1..], name, b);
      }
    }
  }

  // ---------------------------------------------------------------------
  // Count, names and visits agree

  /** The names are listed once each; exactly the names with bindings appear. */
  lemma NamesDistinct(reg: Registry)
    requires Valid(reg)
    ensures forall i, j :: 0 <= i < j < |Names(reg)| ==> Names(reg)[i] != Names(reg)[j]
    ensures forall n :: n in Names(reg) <==> Bindings(reg, n) != []
  {
    forall n ensures n in Names(reg) <==> Bindings(reg, n) != [] {
      GetIsIndexed(reg, n);
    }
  }

  lemma {:induction false} CountAppend(reg: Registry, e: Entry)
    ensures CountOf(reg + [e]) == CountOf(reg) + |e.bindings|
  {
    if reg != [] {
      CountAppend(reg[1..], e);
      assert (reg + [e])[1..] == reg[1..] + [e];
    }
  }

  lemma {:induction false} VisitsAppend(reg: Registry, e: Entry)
    ensures Visits(reg + [e]) == Visits(reg) + EntryVisits(e)
  {
    if reg != [] {
      VisitsAppend(reg[1..], e);
      assert (reg + [e])[1..] == reg[1..] + [e];
    }
  }

  /** `forEachEvent` visits each binding once: as many visits as `eventCount`. */
  lemma {:induction false} VisitsCount(reg: Registry)
    ensures |Visits(reg)| == CountOf(reg)
  {
    if reg != [] { VisitsCount(reg[1..]); }
  }

  /** The visit order: binding j of the i-th name is visited after every
      binding of the names before it. */
  lemma {:induction false} VisitAt(reg: Registry, i: nat, j: nat)
    requires i < |reg| && j < |reg[i].bindings|
    ensures CountOf(reg[..i]) + j < |Visits(reg)|
    ensures Visits(reg)[CountOf(reg[..i]) + j] == Visit(reg[i].name, reg[i].bindings[j].callback, reg[i].bindings[j].ctx)
  {
    VisitsCount(reg[1..]);
    if i > 0 {
      VisitAt(reg[1..], i - 1, j);
      assert reg[..i][1..] == reg[1..][..i - 1];
    }
  }

  lemma RemoveWhereSubset(reg: Registry, f: Filter, name: string, b: Binding)
    requires Valid(reg)
    requires b in Bindings(RemoveWhere(reg, f), name)
    ensures b in Bindings(reg, name)
  {
    RemoveWhereBindings(reg, f, name);
    KeepMembers(Bindings(reg, name), f, name);
  }

  /** Removals never add a binding, and a binding none of them matches stays. */
  lemma {:induction false} RemoveEachBindings(reg: Registry, fs: seq<Filter>, name: string)
    requires Valid(reg)
    ensures forall b :: b in Bindings(RemoveEach(reg, fs), name) ==> b in Bindings(reg, name)
    ensures forall b :: (b in Bindings(reg, name) && (forall k :: 0 <= k < |fs| ==> !Matches(fs[k], name, b)))
                        ==> b in Bindings(RemoveEach(reg, fs), name)
    decreases |fs|
  {
    if fs != [] {
      var f := fs[0];
      var bs := Bindings(reg, name);
      var next := RemoveWhere(reg, f);
      RemoveWhereValid(reg, f);
      RemoveWhereBindings(reg, f, name);
      KeepMembers(bs, f, name);
      RemoveEachBindings(next, fs[1..], name);
      assert RemoveEach(reg, fs) == RemoveEach(next, fs[1..]);
      forall b | b in Bindings(RemoveEach(reg, fs), name) ensures b in Bindings(reg, name) {
        RemoveWhereSubset(reg, f, name, b);
      }
      forall b | b in Bindings(reg, name) && (forall k :: 0 <= k < |fs| ==> !Matches(fs[k], name, b))
        ensures b in Bindings(RemoveEach(reg, fs), name)
      {
        assert !Matches(fs[0], name, b);
        forall k | 0 <= k < |fs[1..]| ensures !Matches(fs[1..][k], name, b) { assert fs[1..][k] == fs[k + 1]; }
      }
    }
  }
}
