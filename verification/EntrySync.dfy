// Copying a group's entries onto a child group's entries: what the result holds, and that a second
// run changes nothing.

module EntrySync {
  import opened EntryLists
  import opened Options
  import opened Sorting

  function TitleList(srcs: seq<Entry>): seq<string> {
    if srcs == [] then [] else TitleList(srcs[..|srcs| - 1]) + [Title(srcs[|srcs| - 1])]
  }

  /** One master group copied onto the entries of its child group. */
  function CopyGroup(es: seq<Entry>, srcs: seq<Entry>, deleteOrphans: bool): seq<Entry> {
    if deleteOrphans then Keep(PutAll(es, srcs), Among(TitleList(srcs))) else PutAll(es, srcs)
  }

  /** Several master groups that share one path. */
  function CopyGroups(es: seq<Entry>, groups: seq<seq<Entry>>, deleteOrphans: bool): seq<Entry> {
    if groups == [] then es
    else CopyGroup(CopyGroups(es, groups[..|groups| - 1], deleteOrphans), groups[|groups| - 1], deleteOrphans)
  }

  /** The last entry with the title. */
  function LastWith(srcs: seq<Entry>, t: string): Entry
    requires t in TitleList(srcs)
  {
    if Title(srcs[|srcs| - 1]) == t then srcs[|srcs| - 1]
    else
      assert TitleList(srcs) == TitleList(srcs[..|srcs| - 1]) + [Title(srcs[|srcs| - 1])];
      LastWith(srcs[..|srcs| - 1], t)
  }

  // ---- what one group's copy leaves ----

  /** Entry by entry: only the first entry with a copied title changes, and only its login. */
  lemma {:induction false} PutAllIs(es: seq<Entry>, srcs: seq<Entry>, i: nat)
    requires i < |es|
    ensures |PutAll(es, srcs)| >= |es|
    ensures var r, e := PutAll(es, srcs)[i], es[i];
      r == if e.title.Some? && e.title.value in TitleList(srcs) && Position(es, e.title.value) == i
           then e.(login := Filled(LastWith(srcs, e.title.value).login)) else e
  {
    if srcs != [] {
      var init, last := srcs[..|srcs| - 1], srcs[|srcs| - 1];
      PutAllIs(es, init, i);
      SamePositions(es, init, Title(last));
    }
  }

  lemma {:induction false} SamePositions(es: seq<Entry>, srcs: seq<Entry>, t: string)
    ensures |PutAll(es, srcs)| >= |es|
    ensures Has(es, t) ==> Position(PutAll(es, srcs), t) == Position(es, t)
    ensures !Has(es, t) ==> Position(PutAll(es, srcs), t) >= |es|
  {
    if srcs != [] {
      var before := PutAll(es, srcs[..|srcs| - 1]);
      SamePositions(es, srcs[..|srcs| - 1], t);
      PositionAfterPut(before, srcs[|srcs| - 1], t);
    }
  }

  lemma PositionAfterPut(es: seq<Entry>, src: Entry, t: string)
    ensures Position(Put(es, src), t) == if !Has(es, t) && t != Title(src) then |Put(es, src)| else Position(es, t)
  {
    var after := Put(es, src);
    PositionIs(after, t, if !Has(es, t) && t != Title(src) then |after| else Position(es, t));
  }

  function LoginAt(es: seq<Entry>, t: string): Login
    requires Has(es, t)
  {
    es[Position(es, t)].login
  }

  /** Every copied title is there with the fields of the last master entry carrying it. */
  lemma {:induction false} LastIsCopied(es: seq<Entry>, srcs: seq<Entry>, t: string)
    requires t in TitleList(srcs)
    ensures Has(PutAll(es, srcs), t) && LoginAt(PutAll(es, srcs), t) == Filled(LastWith(srcs, t).login)
  {
    var init, last := srcs[..|srcs| - 1], srcs[|srcs| - 1];
    PositionAfterPut(PutAll(es, init), last, t);
    assert TitleList(srcs) == TitleList(init) + [Title(last)];
    if Title(last) != t { LastIsCopied(es, init, t); }
  }

  lemma {:induction false} OthersKeepLogin(es: seq<Entry>, srcs: seq<Entry>, t: string)
    requires t !in TitleList(srcs)
    ensures Has(PutAll(es, srcs), t) <==> Has(es, t)
    ensures Has(es, t) ==> LoginAt(PutAll(es, srcs), t) == LoginAt(es, t)
  {
    if srcs != [] {
      var init, last := srcs[..|srcs| - 1], srcs[|srcs| - 1];
      assert TitleList(srcs) == TitleList(init) + [Title(last)];
      OthersKeepLogin(es, init, t);
      PositionAfterPut(PutAll(es, init), last, t);
    }
  }

  lemma {:induction false} LoginOfKeep(es: seq<Entry>, titles: set<string>, t: string)
    requires t in titles && Has(es, t)
    ensures Has(Keep(es, titles), t) && LoginAt(Keep(es, titles), t) == LoginAt(es, t)
  {
    var init, last := es[..|es| - 1], [es[|es| - 1]];
    var tail := if Title(last[0]) in titles then last else [];
    assert es == init + last && Keep(es, titles) == Keep(init, titles) + tail;
    HasOfKeep(init, titles, t);
    LoginOfAppend(init, last, t);
    LoginOfAppend(Keep(init, titles), tail, t);
    if Has(init, t) {
      LoginOfKeep(init, titles, t);
    } else {
      assert tail == last;
    }
  }

  lemma LoginOfAppend(a: seq<Entry>, b: seq<Entry>, t: string)
    ensures Has(a + b, t) <==> Has(a, t) || Has(b, t)
    ensures Has(a, t) ==> LoginAt(a + b, t) == LoginAt(a, t)
    ensures !Has(a, t) && Has(b, t) ==> LoginAt(a + b, t) == LoginAt(b, t)
  {
    HasOfAppend(a, b, t);
  }

  /** After a copy, with or without pruning, each master title carries its last master fields. */
  lemma CopiedFields(es: seq<Entry>, srcs: seq<Entry>, deleteOrphans: bool, t: string)
    requires t in TitleList(srcs)
    ensures var r := CopyGroup(es, srcs, deleteOrphans); Has(r, t) && LoginAt(r, t) == Filled(LastWith(srcs, t).login)
  {
    LastIsCopied(es, srcs, t);
    if deleteOrphans { LoginOfKeep(PutAll(es, srcs), Among(TitleList(srcs)), t); }
  }

  /** With pruning, the titles of the copy are the titles of the master group. */
  lemma PrunedTitles(es: seq<Entry>, srcs: seq<Entry>)
    ensures Titles(CopyGroup(es, srcs, true)) == Among(TitleList(srcs))
  {
    var r := CopyGroup(es, srcs, true);
    KeptTitles(PutAll(es, srcs), Among(TitleList(srcs)));
    forall t | t in TitleList(srcs) ensures t in Titles(r) {
      CopiedFields(es, srcs, true, t);
      assert r[Position(r, t)] in r;
    }
  }

  // ---- a second run ----

  lemma {:induction false} StripOfPut(es: seq<Entry>, src: Entry)
    ensures Strip(Put(es, src)) == Add(Strip(es), Title(src))
  {
    PositionOfStrip(es, Title(src));
    var i := Position(es, Title(src));
    if i < |es| {
      StripIgnoresFirstLogin(es, Title(src), Filled(src.login));
    } else {
      assert Put(es, src)[..|es|] == es;
    }
  }

  lemma StripIgnoresFirstLogin(es: seq<Entry>, t: string, l: Login)
    requires Has(es, t)
    ensures Strip(WithLogin(es, Position(es, t), l)) == Strip(es)
  {
    var changed := WithLogin(es, Position(es, t), l);
    forall j | 0 <= j < |es| ensures Strip(changed)[j] == Strip(es)[j] { StripSameAt(es, t, l, j); }
  }

  lemma StripSameAt(es: seq<Entry>, t: string, l: Login, j: nat)
    requires Has(es, t) && j < |es|
    ensures Strip(WithLogin(es, Position(es, t), l))[j] == Strip(es)[j]
  {
    var changed := WithLogin(es, Position(es, t), l);
    StripAt(es, j);
    StripAt(changed, j);
    if es[j].title.Some? { SameTitles(es, changed, es[j].title.value); }
  }

  function WithLogin(es: seq<Entry>, i: nat, l: Login): seq<Entry>
    requires i < |es|
  {
    es[i := es[i].(login := l)]
  }

  lemma SameTitles(a: seq<Entry>, b: seq<Entry>, t: string)
    requires |a| == |b| && forall i :: 0 <= i < |a| ==> a[i].title == b[i].title
    ensures Position(a, t) == Position(b, t)
  {
    PositionIs(b, t, Position(a, t));
  }

  lemma {:induction false} StripOfPutAll(es: seq<Entry>, srcs: seq<Entry>)
    ensures Strip(PutAll(es, srcs)) == AddAll(Strip(es), TitleList(srcs))
  {
    if srcs != [] {
      var init, last := srcs[..|srcs| - 1], srcs[|srcs| - 1];
      StripOfPutAll(es, init);
      StripOfPut(PutAll(es, init), last);
      assert TitleList(srcs)[..|TitleList(srcs)| - 1] == TitleList(init);
    }
  }

  lemma {:induction false} StripOfKeep(es: seq<Entry>, titles: set<string>)
    ensures Strip(Keep(es, titles)) == Keep(Strip(es), titles)
  {
    if es != [] {
      var init, last := es[..|es| - 1], es[|es| - 1];
      StripOfKeep(init, titles);
      assert Strip(es)[..|es| - 1] == Strip(init);
      if Title(last) in titles {
        HasOfKeep(init, titles, Title(last));
        assert Keep(es, titles)[..|Keep(init, titles)|] == Keep(init, titles);
      } else {
        assert Keep(es, titles) == Keep(init, titles);
      }
    }
  }

  ghost predicate SameLogins(a: seq<Entry>, b: seq<Entry>) {
    forall t :: Has(a, t) && Has(b, t) ==> LoginAt(a, t) == LoginAt(b, t)
  }

  /** Entries with the same skeleton and the same first logins are equal. */
  lemma SameFromStrip(a: seq<Entry>, b: seq<Entry>)
    requires Strip(a) == Strip(b) && SameLogins(a, b)
    ensures a == b
  {
    forall i | 0 <= i < |a| ensures a[i] == b[i] { SameAt(a, b, i); }
  }

  predicate IsFirst(es: seq<Entry>, i: nat)
    requires i < |es|
  {
    es[i].title.Some? && Position(es, es[i].title.value) == i
  }

  lemma SameFirst(a: seq<Entry>, b: seq<Entry>, i: nat)
    requires Strip(a) == Strip(b) && i < |a| == |b|
    ensures a[i].title == b[i].title && a[i].extra == b[i].extra && (IsFirst(a, i) <==> IsFirst(b, i))
  {
    assert a[i].title == Strip(a)[i].title && b[i].title == Strip(b)[i].title;
    if a[i].title.Some? {
      PositionOfStrip(a, a[i].title.value);
      PositionOfStrip(b, a[i].title.value);
    }
  }

  lemma SameAt(a: seq<Entry>, b: seq<Entry>, i: nat)
    requires Strip(a) == Strip(b) && SameLogins(a, b) && i < |a| == |b|
    ensures a[i] == b[i]
  {
    SameFirst(a, b, i);
    if IsFirst(a, i) {
      var t := a[i].title.value;
      assert LoginAt(a, t) == a[i].login && LoginAt(b, t) == b[i].login;
    } else {
      StripAt(a, i);
      StripAt(b, i);
    }
  }

  lemma {:induction false} StripAt(es: seq<Entry>, i: nat)
    requires i < |es|
    ensures Strip(es)[i] == if IsFirst(es, i) then es[i].(login := BLANK) else es[i]
  {
    var init, last := es[..|es| - 1], es[|es| - 1];
    if i < |init| {
      StripAt(init, i);
      if es[i].title.Some? { PositionIs(es, es[i].title.value, Position(init, es[i].title.value)); }
    } else if last.title.Some? && !Has(init, last.title.value) {
      PositionIs(es, last.title.value, |init|);
    }
  }

  function TitleLists(groups: seq<seq<Entry>>): (r: seq<seq<string>>)
    ensures |r| == |groups|
  {
    if groups == [] then [] else TitleLists(groups[..|groups| - 1]) + [TitleList(groups[|groups| - 1])]
  }

  lemma {:induction false} StripOfGroups(es: seq<Entry>, groups: seq<seq<Entry>>)
    ensures Strip(CopyGroups(es, groups, true)) == Blocks(Strip(es), TitleLists(groups))
  {
    if groups != [] {
      var init, last := groups[..|groups| - 1], groups[|groups| - 1];
      var before := CopyGroups(es, init, true);
      StripOfGroups(es, init);
      StripOfPutAll(before, last);
      StripOfKeep(PutAll(before, last), Among(TitleList(last)));
      assert TitleLists(groups)[..|init|] == TitleLists(init);
    }
  }

  /** Pruning runs: whatever was there, a second run over the same groups changes nothing. */
  lemma SecondPruningRun(es: seq<Entry>, groups: seq<seq<Entry>>)
    ensures CopyGroups(CopyGroups(es, groups, true), groups, true) == CopyGroups(es, groups, true)
  {
    if groups != [] {
      var once := CopyGroups(es, groups, true);
      var twice := CopyGroups(once, groups, true);
      StripOfGroups(es, groups);
      StripOfGroups(once, groups);
      BlocksAbsorb(Strip(es), TitleLists(groups), []);
      assert Strip(once) + [] == Strip(once);
      forall t | Has(once, t) && Has(twice, t) ensures LoginAt(once, t) == LoginAt(twice, t) {
        LastGroupDecides(CopyGroups(es, groups[..|groups| - 1], true), groups[|groups| - 1], t);
        LastGroupDecides(CopyGroups(once, groups[..|groups| - 1], true), groups[|groups| - 1], t);
      }
      SameFromStrip(once, twice);
    }
  }

  lemma LastGroupDecides(es: seq<Entry>, srcs: seq<Entry>, t: string)
    requires Has(CopyGroup(es, srcs, true), t)
    ensures t in TitleList(srcs) && LoginAt(CopyGroup(es, srcs, true), t) == Filled(LastWith(srcs, t).login)
  {
    var r := CopyGroup(es, srcs, true);
    KeptTitles(PutAll(es, srcs), Among(TitleList(srcs)));
    assert r[Position(r, t)] in r;
    CopiedFields(es, srcs, true, t);
  }

  // Without pruning, copying several groups is copying their entries in one go.

  function Concat(groups: seq<seq<Entry>>): seq<Entry> {
    if groups == [] then [] else Concat(groups[..|groups| - 1]) + groups[|groups| - 1]
  }

  lemma {:induction false} PutAllAppend(es: seq<Entry>, a: seq<Entry>, b: seq<Entry>)
    ensures PutAll(es, a + b) == PutAll(PutAll(es, a), b)
  {
    if b == [] {
      assert a + b == a;
    } else {
      PutAllAppend(es, a, b[..|b| - 1]);
      assert (a + b)[..|a + b| - 1] == a + b[..|b| - 1];
    }
  }

  lemma {:induction false} GroupsAsOne(es: seq<Entry>, groups: seq<seq<Entry>>)
    ensures CopyGroups(es, groups, false) == PutAll(es, Concat(groups))
  {
    if groups != [] {
      GroupsAsOne(es, groups[..|groups| - 1]);
      PutAllAppend(es, Concat(groups[..|groups| - 1]), groups[|groups| - 1]);
    }
  }

  lemma {:induction false} NothingAdded(es: seq<Entry>, ts: seq<string>)
    requires forall t :: t in ts ==> Has(es, t)
    ensures AddAll(es, ts) == es
  {
    if ts != [] {
      assert ts == ts[..|ts| - 1] + [ts[|ts| - 1]];
      NothingAdded(es, ts[..|ts| - 1]);
    }
  }

  /** A second run without pruning changes nothing either. */
  lemma SecondPlainRun(es: seq<Entry>, srcs: seq<Entry>)
    ensures PutAll(PutAll(es, srcs), srcs) == PutAll(es, srcs)
  {
    var once := PutAll(es, srcs);
    var twice := PutAll(once, srcs);
    StripOfPutAll(once, srcs);
    forall t | t in TitleList(srcs) ensures Has(Strip(once), t) {
      LastIsCopied(es, srcs, t);
      PositionOfStrip(once, t);
    }
    NothingAdded(Strip(once), TitleList(srcs));
    forall t | Has(once, t) && Has(twice, t) ensures LoginAt(once, t) == LoginAt(twice, t) {
      if t in TitleList(srcs) {
        LastIsCopied(es, srcs, t);
        LastIsCopied(once, srcs, t);
      } else {
        OthersKeepLogin(once, srcs, t);
      }
    }
    SameFromStrip(once, twice);
  }

  /** Running a second time changes nothing, even where several master groups share one path. */
  lemma SecondRun(es: seq<Entry>, groups: seq<seq<Entry>>, deleteOrphans: bool)
    ensures CopyGroups(CopyGroups(es, groups, deleteOrphans), groups, deleteOrphans) == CopyGroups(es, groups, deleteOrphans)
  {
    if deleteOrphans {
      SecondPruningRun(es, groups);
    } else {
      GroupsAsOne(es, groups);
      GroupsAsOne(CopyGroups(es, groups, false), groups);
      SecondPlainRun(es, Concat(groups));
    }
  }
}
