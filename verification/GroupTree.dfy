// KeePass group trees: first-match lookup by names, creation on demand, and updating one group.

module GroupTrees {
  import opened EntryLists
  import opened Options

  datatype Group = Group(name: string, entries: seq<Entry>, subgroups: seq<Group>)

  /** The first subgroup with the name, or the length. */
  function IndexOfName(gs: seq<Group>, name: string): (i: nat)
    ensures i <= |gs| && (i < |gs| ==> gs[i].name == name)
    ensures forall j :: 0 <= j < i ==> gs[j].name != name
  {
    if gs == [] then 0
    else
      var i := IndexOfName(gs[..|gs| - 1], name);
      if i < |gs| - 1 || gs[|gs| - 1].name == name then i else |gs|
  }

  function Find(g: Group, path: seq<string>): Option<Group>
    decreases |path|
  {
    if path == [] then Some(g)
    else
      var i := IndexOfName(g.subgroups, path[0]);
      if i < |g.subgroups| then Find(g.subgroups[i], path[1..]) else None
  }

  /** The entries of the group at the path; none where there is no group. */
  function EntriesAt(g: Group, path: seq<string>): seq<Entry> {
    var found := Find(g, path);
    if found.Some? then found.value.entries else []
  }

  function Ensure(g: Group, path: seq<string>): Group
    decreases |path|
  {
    if path == [] then g
    else
      var i := IndexOfName(g.subgroups, path[0]);
      if i < |g.subgroups| then g.(subgroups := g.subgroups[i := Ensure(g.subgroups[i], path[1..])])
      else g.(subgroups := g.subgroups + [Ensure(Group(path[0], [], []), path[1..])])
  }

  /** Replaces the entries of the group at the path. */
  function SetEntries(g: Group, path: seq<string>, es: seq<Entry>): Group
    decreases |path|
  {
    if path == [] then g.(entries := es)
    else
      var i := IndexOfName(g.subgroups, path[0]);
      if i < |g.subgroups| then g.(subgroups := g.subgroups[i := SetEntries(g.subgroups[i], path[1..], es)]) else g
  }

  /** Appends an empty group to the group at the path. */
  function AddGroup(g: Group, path: seq<string>, name: string): Group
    decreases |path|
  {
    if path == [] then g.(subgroups := g.subgroups + [Group(name, [], [])])
    else
      var i := IndexOfName(g.subgroups, path[0]);
      if i < |g.subgroups| then g.(subgroups := g.subgroups[i := AddGroup(g.subgroups[i], path[1..], name)]) else g
  }

  lemma IndexIs(gs: seq<Group>, name: string, i: nat)
    requires i <= |gs| && (i < |gs| ==> gs[i].name == name) && forall j :: 0 <= j < i ==> gs[j].name != name
    ensures IndexOfName(gs, name) == i
  {
  }

  lemma IndexAfterUpdate(gs: seq<Group>, i: nat, g: Group, name: string)
    requires i < |gs| && g.name == gs[i].name
    ensures IndexOfName(gs[i := g], name) == IndexOfName(gs, name)
  {
    IndexIs(gs[i := g], name, IndexOfName(gs, name));
  }

  lemma IndexAfterAppend(gs: seq<Group>, g: Group, name: string)
    ensures IndexOfName(gs + [g], name)
         == if IndexOfName(gs, name) < |gs| || g.name != name then
              (if IndexOfName(gs, name) < |gs| then IndexOfName(gs, name) else |gs| + 1)
            else |gs|
  {
    IndexIs(gs + [g], name, if IndexOfName(gs, name) < |gs| then IndexOfName(gs, name) else if g.name == name then |gs| else |gs| + 1);
  }

  lemma KeepsName(g: Group, path: seq<string>, es: seq<Entry>)
    ensures Ensure(g, path).name == g.name && SetEntries(g, path, es).name == g.name
  {
  }

  // ---- lookups after creation and update ----

  /** Creating a path makes exactly its prefixes exist and moves no entries. */
  lemma {:induction false} FindAfterEnsure(g: Group, path: seq<string>, q: seq<string>)
    ensures Find(Ensure(g, path), q).Some? <==> Find(g, q).Some? || q <= path
    ensures EntriesAt(Ensure(g, path), q) == EntriesAt(g, q)
    decreases |path|
  {
    if path != [] && q != [] {
      var i := IndexOfName(g.subgroups, path[0]);
      if i < |g.subgroups| {
        KeepsName(g.subgroups[i], path[1..], []);
        IndexAfterUpdate(g.subgroups, i, Ensure(g.subgroups[i], path[1..]), q[0]);
        FindAfterEnsure(g.subgroups[i], path[1..], q[1..]);
      } else {
        var made := Group(path[0], [], []);
        KeepsName(made, path[1..], []);
        IndexAfterAppend(g.subgroups, Ensure(made, path[1..]), q[0]);
        FindAfterEnsure(made, path[1..], q[1..]);
        NothingInFresh(made, q[1..]);
      }
      PrefixStep(q, path);
    }
  }

  lemma PrefixStep(q: seq<string>, path: seq<string>)
    requires q != [] && path != []
    ensures q <= path <==> q[0] == path[0] && q[1..] <= path[1..]
  {
    if q[0] == path[0] && q[1..] <= path[1..] { assert q == [q[0]] + q[1..] && path == [path[0]] + path[1..]; }
  }

  lemma NothingInFresh(g: Group, q: seq<string>)
    requires g.entries == [] && g.subgroups == []
    ensures EntriesAt(g, q) == [] && (Find(g, q).Some? <==> q == [])
  {
  }

  /** Updating the group at a path changes the entries there and nowhere else. */
  lemma {:induction false} FindAfterSet(g: Group, path: seq<string>, es: seq<Entry>, q: seq<string>)
    requires Find(g, path).Some?
    ensures Find(SetEntries(g, path, es), q).Some? <==> Find(g, q).Some?
    ensures EntriesAt(SetEntries(g, path, es), q) == if q == path then es else EntriesAt(g, q)
    decreases |path|
  {
    if path != [] {
      var i := IndexOfName(g.subgroups, path[0]);
      KeepsName(g.subgroups[i], path[1..], es);
      if q != [] {
        IndexAfterUpdate(g.subgroups, i, SetEntries(g.subgroups[i], path[1..], es), q[0]);
        FindAfterSet(g.subgroups[i], path[1..], es, q[1..]);
        assert q == [q[0]] + q[1..] && path == [path[0]] + path[1..];
      }
    }
  }

  // ---- what cannot be reached by name, or is not on the path, stays ----

  /** `b` is `a` with other entries in groups reachable by name, and with groups appended. */
  ghost predicate Extends(a: Group, b: Group) {
    && a.name == b.name && |a.subgroups| <= |b.subgroups|
    && forall i :: 0 <= i < |a.subgroups| ==>
         if IndexOfName(a.subgroups, a.subgroups[i].name) == i then Extends(a.subgroups[i], b.subgroups[i])
         else b.subgroups[i] == a.subgroups[i]
  }

  /** The same, with no group appended. */
  ghost predicate Alike(a: Group, b: Group) {
    && a.name == b.name && |a.subgroups| == |b.subgroups|
    && forall i :: 0 <= i < |a.subgroups| ==>
         if IndexOfName(a.subgroups, a.subgroups[i].name) == i then Alike(a.subgroups[i], b.subgroups[i])
         else b.subgroups[i] == a.subgroups[i]
  }

  lemma {:induction false} ExtendsReflexive(a: Group)
    ensures Extends(a, a)
  {
    forall i | 0 <= i < |a.subgroups| ensures Extends(a.subgroups[i], a.subgroups[i]) { ExtendsReflexive(a.subgroups[i]); }
  }

  lemma {:induction false} AlikeReflexive(a: Group)
    ensures Alike(a, a)
  {
    forall i | 0 <= i < |a.subgroups| ensures Alike(a.subgroups[i], a.subgroups[i]) { AlikeReflexive(a.subgroups[i]); }
  }

  lemma {:induction false} AlikeExtends(a: Group, b: Group)
    requires Alike(a, b)
    ensures Extends(a, b)
  {
    forall i | 0 <= i < |a.subgroups| && IndexOfName(a.subgroups, a.subgroups[i].name) == i
      ensures Extends(a.subgroups[i], b.subgroups[i])
    {
      AlikeExtends(a.subgroups[i], b.subgroups[i]);
    }
  }

  /** Groups kept in place under their names keep being first, or not. */
  lemma SameFirstIndex(gs: seq<Group>, hs: seq<Group>, i: nat)
    requires i < |gs| <= |hs| && forall j :: 0 <= j < |gs| ==> gs[j].name == hs[j].name
    ensures IndexOfName(hs, hs[i].name) == IndexOfName(gs, gs[i].name)
  {
    IndexIs(hs, gs[i].name, IndexOfName(gs, gs[i].name));
  }

  lemma {:induction false} ExtendsTransitive(a: Group, b: Group, c: Group)
    requires Extends(a, b) && Extends(b, c)
    ensures Extends(a, c)
  {
    forall i | 0 <= i < |a.subgroups|
      ensures if IndexOfName(a.subgroups, a.subgroups[i].name) == i then Extends(a.subgroups[i], c.subgroups[i])
              else c.subgroups[i] == a.subgroups[i]
    {
      SameFirstIndex(a.subgroups, b.subgroups, i);
      if IndexOfName(a.subgroups, a.subgroups[i].name) == i {
        ExtendsTransitive(a.subgroups[i], b.subgroups[i], c.subgroups[i]);
      }
    }
  }

  lemma {:induction false} AlikeTransitive(a: Group, b: Group, c: Group)
    requires Alike(a, b) && Alike(b, c)
    ensures Alike(a, c)
  {
    forall i | 0 <= i < |a.subgroups|
      ensures if IndexOfName(a.subgroups, a.subgroups[i].name) == i then Alike(a.subgroups[i], c.subgroups[i])
              else c.subgroups[i] == a.subgroups[i]
    {
      SameFirstIndex(a.subgroups, b.subgroups, i);
      if IndexOfName(a.subgroups, a.subgroups[i].name) == i {
        AlikeTransitive(a.subgroups[i], b.subgroups[i], c.subgroups[i]);
      }
    }
  }

  lemma {:induction false} EnsureExtends(g: Group, path: seq<string>)
    ensures Extends(g, Ensure(g, path))
    ensures Find(g, path).Some? ==> Ensure(g, path) == g
    decreases |path|
  {
    if path == [] {
      ExtendsReflexive(g);
    } else {
      forall i | 0 <= i < |g.subgroups| ensures Extends(g.subgroups[i], g.subgroups[i]) { ExtendsReflexive(g.subgroups[i]); }
      var i := IndexOfName(g.subgroups, path[0]);
      if i < |g.subgroups| { EnsureExtends(g.subgroups[i], path[1..]); }
    }
  }

  lemma {:induction false} SetIsAlike(g: Group, path: seq<string>, es: seq<Entry>)
    ensures Alike(g, SetEntries(g, path, es))
    decreases |path|
  {
    forall i | 0 <= i < |g.subgroups| ensures Alike(g.subgroups[i], g.subgroups[i]) { AlikeReflexive(g.subgroups[i]); }
    if path != [] {
      var i := IndexOfName(g.subgroups, path[0]);
      if i < |g.subgroups| { SetIsAlike(g.subgroups[i], path[1..], es); }
    }
  }

  /** Trees that differ at most in the entries of reachable groups are equal if those are. */
  lemma {:induction false} AlikeEqual(a: Group, b: Group)
    requires Alike(a, b) && forall q :: EntriesAt(a, q) == EntriesAt(b, q)
    ensures a == b
  {
    assert EntriesAt(a, []) == EntriesAt(b, []);
    forall i | 0 <= i < |a.subgroups| ensures a.subgroups[i] == b.subgroups[i] {
      if IndexOfName(a.subgroups, a.subgroups[i].name) == i {
        assert forall j :: 0 <= j < |a.subgroups| ==> a.subgroups[j].name == b.subgroups[j].name;
        SameFirstIndex(a.subgroups, b.subgroups, i);
        forall q ensures EntriesAt(a.subgroups[i], q) == EntriesAt(b.subgroups[i], q) {
          BelowFirst(a, i, q);
          BelowFirst(b, i, q);
        }
        AlikeEqual(a.subgroups[i], b.subgroups[i]);
      }
    }
  }

  lemma BelowFirst(g: Group, i: nat, q: seq<string>)
    requires i < |g.subgroups| && IndexOfName(g.subgroups, g.subgroups[i].name) == i
    ensures EntriesAt(g.subgroups[i], q) == EntriesAt(g, [g.subgroups[i].name] + q)
  {
    assert ([g.subgroups[i].name] + q)[1..] == q;
  }

  // ---- counting entries ----

  function Count(g: Group): nat {
    |g.entries| + CountAll(g.subgroups)
  }

  function CountAll(gs: seq<Group>): nat {
    if gs == [] then 0 else CountAll(gs[..|gs| - 1]) + Count(gs[|gs| - 1])
  }

  lemma {:induction false} CountAfterUpdate(gs: seq<Group>, i: nat, g: Group)
    requires i < |gs|
    ensures CountAll(gs[i := g]) == CountAll(gs) - Count(gs[i]) + Count(g)
  {
    var n := |gs| - 1;
    if i < n {
      CountAfterUpdate(gs[..n], i, g);
      assert gs[i := g][..n] == gs[..n][i := g];
    } else {
      assert gs[i := g][..n] == gs[..n];
    }
  }

  lemma {:induction false} CountAfterEnsure(g: Group, path: seq<string>)
    ensures Count(Ensure(g, path)) == Count(g)
    decreases |path|
  {
    if path != [] {
      var i := IndexOfName(g.subgroups, path[0]);
      if i < |g.subgroups| {
        CountAfterEnsure(g.subgroups[i], path[1..]);
        CountAfterUpdate(g.subgroups, i, Ensure(g.subgroups[i], path[1..]));
      } else {
        var made := Ensure(Group(path[0], [], []), path[1..]);
        CountAfterEnsure(Group(path[0], [], []), path[1..]);
        assert (g.subgroups + [made])[..|g.subgroups|] == g.subgroups;
      }
    }
  }

  lemma {:induction false} CountAfterSet(g: Group, path: seq<string>, es: seq<Entry>)
    requires Find(g, path).Some?
    ensures Count(SetEntries(g, path, es)) == Count(g) - |EntriesAt(g, path)| + |es|
    decreases |path|
  {
    if path != [] {
      var i := IndexOfName(g.subgroups, path[0]);
      CountAfterSet(g.subgroups[i], path[1..], es);
      CountAfterUpdate(g.subgroups, i, SetEntries(g.subgroups[i], path[1..], es));
    }
  }
}
