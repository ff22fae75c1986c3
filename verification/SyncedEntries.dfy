// What a synced child holds, field by field, and what the counts of a run add up to.

module SyncedEntries {
  import opened EntryLists
  import opened EntrySync
  import opened GroupTrees
  import opened KeePassSync
  import opened Options
  import opened Text

  /** Title and fields of a copy: those of the master entry, each empty where the master has none. */
  ghost predicate IsCopyOf(e: Entry, src: Entry) {
    && e.title == Some(if src.title.Some? then src.title.value else "")
    && e.login.username == Some(if src.login.username.Some? then src.login.username.value else "")
    && e.login.password == Some(if src.login.password.Some? then src.login.password.value else "")
    && e.login.url == Some(if src.login.url.Some? then src.login.url.value else "")
    && e.login.notes == Some(if src.login.notes.Some? then src.login.notes.value else "")
  }

  /** The first entry of its title. */
  ghost predicate IsFirstOfTitle(es: seq<Entry>, i: nat)
    requires i < |es|
  {
    forall k :: 0 <= k < i ==> es[k].title != es[i].title
  }

  /** No later entry has this title, an absent title counting as the empty one. */
  ghost predicate IsLastOfTitle(srcs: seq<Entry>, j: nat)
    requires j < |srcs|
  {
    forall k :: j < k < |srcs| ==>
      (if srcs[k].title.Some? then srcs[k].title.value else "") != (if srcs[j].title.Some? then srcs[j].title.value else "")
  }

  lemma {:induction false} TitlesAre(srcs: seq<Entry>)
    ensures |TitleList(srcs)| == |srcs| && forall i :: 0 <= i < |srcs| ==> TitleList(srcs)[i] == Title(srcs[i])
  {
    if srcs != [] { TitlesAre(srcs[..|srcs| - 1]); }
  }

  lemma {:induction false} LastIs(srcs: seq<Entry>, j: nat)
    requires j < |srcs| && IsLastOfTitle(srcs, j)
    ensures Title(srcs[j]) in TitleList(srcs) && LastWith(srcs, Title(srcs[j])) == srcs[j]
  {
    TitlesAre(srcs);
    assert TitleList(srcs)[j] in TitleList(srcs);
    if j < |srcs| - 1 {
      var init := srcs[..|srcs| - 1];
      assert IsLastOfTitle(init, j);
      LastIs(init, j);
    }
  }

  lemma CopyAt(es: seq<Entry>, src: Entry) returns (i: nat)
    requires Has(es, Title(src)) && LoginAt(es, Title(src)) == Filled(src.login)
    ensures i < |es| && IsFirstOfTitle(es, i) && IsCopyOf(es[i], src)
  {
    i := Position(es, Title(src));
  }

  /** After a sync the first child entry of each deciding title is a copy of the last master entry of that title. */
  lemma SyncedEntry(child: Group, src: Group, path: seq<string>, del: bool, q: seq<string>, j: nat) returns (i: nat)
    requires j < |Deciding(GroupsAt(src, path, q), del)| && IsLastOfTitle(Deciding(GroupsAt(src, path, q), del), j)
    ensures var es := EntriesAt(Run(child, Plan(src, path, del), false), q);
      i < |es| && IsFirstOfTitle(es, i) && IsCopyOf(es[i], Deciding(GroupsAt(src, path, q), del)[j])
  {
    var srcs := Deciding(GroupsAt(src, path, q), del);
    LastIs(srcs, j);
    SyncedFields(child, src, path, del, q, Title(srcs[j]));
    i := CopyAt(EntriesAt(Run(child, Plan(src, path, del), false), q), srcs[j]);
  }

  /** With distinct sibling names: the last master entry of each title has its copy in the mirrored group. */
  lemma MirroredEntry(child: Group, src: Group, path: seq<string>, del: bool, r: seq<string>, j: nat) returns (i: nat)
    requires DistinctNames(src) && Find(src, r).Some?
    requires j < |Find(src, r).value.entries| && IsLastOfTitle(Find(src, r).value.entries, j)
    ensures var es := EntriesAt(Run(child, Plan(src, path, del), false), path + r);
      i < |es| && IsFirstOfTitle(es, i) && IsCopyOf(es[i], Find(src, r).value.entries[j])
  {
    var srcs := Find(src, r).value.entries;
    LastIs(srcs, j);
    MirroredGroup(child, src, path, del, r, Title(srcs[j]));
    i := CopyAt(EntriesAt(Run(child, Plan(src, path, del), false), path + r), srcs[j]);
  }

  /** Entries that a copy adds hold nothing else. */
  lemma {:induction false} AddedAreBare(es: seq<Entry>, srcs: seq<Entry>, i: nat)
    requires |es| <= i < |PutAll(es, srcs)|
    ensures PutAll(es, srcs)[i].extra == "" && PutAll(es, srcs)[i].title.Some?
  {
    if srcs != [] {
      var before := PutAll(es, srcs[..|srcs| - 1]);
      if i < |before| { AddedAreBare(es, srcs[..|srcs| - 1], i); }
    }
  }

  // ---- the counts of a run ----

  function CopyCount(ops: seq<Op>): nat {
    if ops == [] then 0 else CopyCount(ops[..|ops| - 1]) + if ops[|ops| - 1].Copy? then 1 else 0
  }

  /** Every copy of a real run is counted once, as added or as updated; a dry run counts none. */
  lemma {:induction false} CopiesAreCounted(g: Group, ops: seq<Op>, dry: bool)
    ensures Tally(g, ops, dry).added + Tally(g, ops, dry).updated == if dry then 0 else CopyCount(ops)
  {
    if ops != [] { CopiesAreCounted(g, ops[..|ops| - 1], dry); }
  }

  // ---- paths ----

  lemma NonEmptyCons(head: string, tail: seq<string>)
    ensures NonEmpty([head] + tail) == (if head == "" then [] else [head]) + NonEmpty(tail)
  {
    assert ([head] + tail)[1..] == tail;
  }

  lemma {:induction false} NonEmptyAppend(a: seq<string>, b: seq<string>)
    ensures NonEmpty(a + b) == NonEmpty(a) + NonEmpty(b)
  {
    if a == [] {
      assert a + b == b;
    } else {
      NonEmptyAppend(a[1..], b);
      NonEmptyCons(a[0], a[1..]);
      NonEmptyCons(a[0], a[1..] + b);
      assert a == [a[0]] + a[1..] && a + b == [a[0]] + (a[1..] + b);
    }
  }

  lemma {:induction false} AllNonEmpty(parts: seq<string>)
    requires "" !in parts
    ensures NonEmpty(parts) == parts
  {
    if parts != [] {
      assert parts[0] in parts;
      AllNonEmpty(parts[1..]);
    }
  }

  /** Group names joined by slashes are found again, a leading or a trailing slash aside. */
  lemma PathOfNames(names: seq<string>)
    requires names != [] && "" !in names && forall n :: n in names ==> '/' !in n
    ensures Parts(Join('/', names)) == names
    ensures Parts(Join('/', [""] + names)) == names && Parts(Join('/', names + [""])) == names
  {
    SplitJoin('/', names);
    SplitJoin('/', [""] + names);
    SplitJoin('/', names + [""]);
    AllNonEmpty(names);
    NonEmptyAppend([""], names);
    NonEmptyAppend(names, [""]);
    assert NonEmpty([""]) == [] by { assert [""][1..] == []; }
    assert [] + names == names && names + [] == names;
  }

  // ----- What pruning keeps -----

  /** Pruning keeps every occurrence of an entry whose title is listed, an absent title counting as the empty one, and
      drops every other. */
  lemma {:induction false} KeptEntries(es: seq<Entry>, titles: set<string>, e: Entry)
    ensures multiset(Keep(es, titles))[e]
      == if (if e.title.Some? then e.title.value else "") in titles then multiset(es)[e] else 0
  {
    if es != [] {
      var init, last := es[..|es| - 1], es[|es| - 1];
      KeptEntries(init, titles, e);
      assert es == init + [last];
    }
  }

  /** What it keeps stays in order. */
  lemma {:induction false} KeptInOrder(a: seq<Entry>, b: seq<Entry>, titles: set<string>)
    ensures Keep(a + b, titles) == Keep(a, titles) + Keep(b, titles)
  {
    if b == [] {
      assert a + b == a;
    } else {
      assert (a + b)[..|a + b| - 1] == a + b[..|b| - 1];
      KeptInOrder(a, b[..|b| - 1], titles);
    }
  }
}
