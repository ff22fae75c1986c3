// The entries of one KeePass group, and what copying and pruning do to them.

module EntryLists {
  import opened Options
  import opened Sorting

  /** The four fields a copy carries over. */
  datatype Login = Login(username: Option<string>, password: Option<string>, url: Option<string>, notes: Option<string>)

  /** `extra` stands for everything else an entry holds. */
  datatype Entry = Entry(title: Option<string>, login: Login, extra: string)

  /** `x or ""` */
  function OrEmpty(x: Option<string>): string {
    if x.Some? then x.value else ""
  }

  function Title(e: Entry): string {
    OrEmpty(e.title)
  }

  function Filled(l: Login): Login {
    Login(Some(OrEmpty(l.username)), Some(OrEmpty(l.password)), Some(OrEmpty(l.url)), Some(OrEmpty(l.notes)))
  }

  /** The first entry with exactly this title, or the length. */
  function Position(es: seq<Entry>, t: string): (i: nat)
    ensures i <= |es| && (i < |es| ==> es[i].title == Some(t))
    ensures forall j :: 0 <= j < i ==> es[j].title != Some(t)
  {
    if es == [] then 0
    else
      var i := Position(es[..|es| - 1], t);
      if i < |es| - 1 || es[|es| - 1].title == Some(t) then i else |es|
  }

  predicate Has(es: seq<Entry>, t: string) {
    Position(es, t) < |es|
  }

  /** Overwrites the first entry with the title, or adds one. */
  function Put(es: seq<Entry>, src: Entry): seq<Entry> {
    var i := Position(es, Title(src));
    if i < |es| then es[i := es[i].(login := Filled(src.login))]
    else es + [Entry(Some(Title(src)), Filled(src.login), "")]
  }

  function PutAll(es: seq<Entry>, srcs: seq<Entry>): seq<Entry> {
    if srcs == [] then es else Put(PutAll(es, srcs[..|srcs| - 1]), srcs[|srcs| - 1])
  }

  /** Drops the entries whose title is not listed. */
  function Keep(es: seq<Entry>, titles: set<string>): seq<Entry> {
    if es == [] then []
    else Keep(es[..|es| - 1], titles) + if Title(es[|es| - 1]) in titles then [es[|es| - 1]] else []
  }

  function Titles(es: seq<Entry>): set<string> {
    set e | e in es :: Title(e)
  }

  // ---- the order of entries, without the logins that copying overwrites ----

  const BLANK := Login(None, None, None, None)

  /** Blanks the login of the first entry with each title. */
  function Strip(es: seq<Entry>): (r: seq<Entry>)
    ensures |r| == |es| && forall i :: 0 <= i < |es| ==> r[i].title == es[i].title && r[i].extra == es[i].extra
  {
    if es == [] then []
    else
      var init, last := es[..|es| - 1], es[|es| - 1];
      Strip(init) + [if last.title.Some? && !Has(init, last.title.value) then last.(login := BLANK) else last]
  }

  function Add(es: seq<Entry>, t: string): seq<Entry> {
    if Has(es, t) then es else es + [Entry(Some(t), BLANK, "")]
  }

  function AddAll(es: seq<Entry>, ts: seq<string>): seq<Entry> {
    if ts == [] then es else Add(AddAll(es, ts[..|ts| - 1]), ts[|ts| - 1])
  }

  lemma {:induction false} PositionIs(es: seq<Entry>, t: string, i: nat)
    requires i <= |es| && (i < |es| ==> es[i].title == Some(t)) && forall j :: 0 <= j < i ==> es[j].title != Some(t)
    ensures Position(es, t) == i
  {
  }

  lemma PositionOfStrip(es: seq<Entry>, t: string)
    ensures Position(Strip(es), t) == Position(es, t)
  {
    PositionIs(Strip(es), t, Position(es, t));
  }

  lemma HasOfKeep(es: seq<Entry>, titles: set<string>, t: string)
    requires t in titles
    ensures Has(Keep(es, titles), t) <==> Has(es, t)
  {
    if es != [] {
      var init, last := es[..|es| - 1], es[|es| - 1];
      HasOfKeep(init, titles, t);
      HasOfAppend(init, [last], t);
      HasOfAppend(Keep(init, titles), if Title(last) in titles then [last] else [], t);
    }
  }

  lemma HasOfAppend(a: seq<Entry>, b: seq<Entry>, t: string)
    ensures Has(a + b, t) <==> Has(a, t) || Has(b, t)
    ensures Position(a + b, t) == if Has(a, t) then Position(a, t) else |a| + Position(b, t)
  {
    PositionIs(a + b, t, if Has(a, t) then Position(a, t) else |a| + Position(b, t));
  }

  lemma {:induction false} KeepAppend(a: seq<Entry>, b: seq<Entry>, titles: set<string>)
    ensures Keep(a + b, titles) == Keep(a, titles) + Keep(b, titles)
  {
    if b == [] {
      assert a + b == a;
    } else {
      var init, last := b[..|b| - 1], b[|b| - 1];
      KeepAppend(a, init, titles);
      assert (a + b)[..|a + b| - 1] == a + init && (a + b)[|a + b| - 1] == last;
      AppendAssoc(Keep(a, titles), Keep(init, titles), if Title(last) in titles then [last] else []);
    }
  }

  lemma {:induction false} KeptTitles(es: seq<Entry>, titles: set<string>)
    ensures forall e :: e in Keep(es, titles) <==> e in es && Title(e) in titles
  {
    if es != [] {
      KeptTitles(es[..|es| - 1], titles);
      assert es == es[..|es| - 1] + [es[|es| - 1]];
    }
  }

  lemma {:induction false} KeepAll(es: seq<Entry>, titles: set<string>)
    requires forall e :: e in es ==> Title(e) in titles
    ensures Keep(es, titles) == es
  {
    if es != [] {
      KeepAll(es[..|es| - 1], titles);
      assert es[|es| - 1] in es;
      assert es == es[..|es| - 1] + [es[|es| - 1]];
    }
  }

  lemma {:induction false} KeepNone(es: seq<Entry>, titles: set<string>)
    requires forall e :: e in es ==> Title(e) !in titles
    ensures Keep(es, titles) == []
  {
    if es != [] {
      KeepNone(es[..|es| - 1], titles);
      assert es[|es| - 1] in es;
    }
  }

  lemma {:induction false} KeepKeep(es: seq<Entry>, a: set<string>, b: set<string>)
    ensures Keep(Keep(es, a), b) == Keep(es, a * b)
  {
    if es != [] {
      var init, last := es[..|es| - 1], es[|es| - 1];
      KeepKeep(init, a, b);
      KeepAppend(Keep(init, a), if Title(last) in a then [last] else [], b);
    }
  }

  // ---- one block of a run: add every title, then drop the others ----

  function Among(ts: seq<string>): set<string> {
    set t | t in ts
  }

  function Only(ts: seq<string>, titles: set<string>): seq<string> {
    if ts == [] then []
    else Only(ts[..|ts| - 1], titles) + if ts[|ts| - 1] in titles then [ts[|ts| - 1]] else []
  }

  function Block(es: seq<Entry>, ts: seq<string>): seq<Entry> {
    Keep(AddAll(es, ts), Among(ts))
  }

  /** What adding the titles appends. */
  function New(es: seq<Entry>, ts: seq<string>): seq<Entry> {
    if ts == [] then []
    else
      var before, t := New(es, ts[..|ts| - 1]), ts[|ts| - 1];
      if Has(es + before, t) then before else before + [Entry(Some(t), BLANK, "")]
  }

  lemma {:induction false} AddAllAppends(es: seq<Entry>, ts: seq<string>)
    ensures AddAll(es, ts) == es + New(es, ts)
  {
    if ts != [] {
      AddAllAppends(es, ts[..|ts| - 1]);
      AppendAssoc(es, New(es, ts[..|ts| - 1]), [Entry(Some(ts[|ts| - 1]), BLANK, "")]);
    }
  }

  lemma {:induction false} NewTitles(es: seq<Entry>, ts: seq<string>)
    ensures forall e :: e in New(es, ts) ==> e.title.Some? && Title(e) in ts && !Has(es, Title(e))
  {
    if ts != [] {
      var init, t := ts[..|ts| - 1], ts[|ts| - 1];
      NewTitles(es, init);
      HasOfAppend(es, New(es, init), t);
      assert ts == init + [t];
    }
  }

  lemma {:induction false} AllAdded(es: seq<Entry>, ts: seq<string>, t: string)
    requires t in ts
    ensures Has(AddAll(es, ts), t)
  {
    var init, last := ts[..|ts| - 1], ts[|ts| - 1];
    assert ts == init + [last];
    if t in init { AllAdded(es, init, t); }
    HasOfAppend(AddAll(es, init), [Entry(Some(last), BLANK, "")], t);
    assert Position([Entry(Some(last), BLANK, "")], last) == 0 by { PositionIs([Entry(Some(last), BLANK, "")], last, 0); }
  }

  lemma BlockHasAll(es: seq<Entry>, ts: seq<string>, t: string)
    requires t in ts
    ensures Has(Block(es, ts), t)
  {
    AllAdded(es, ts, t);
    HasOfKeep(AddAll(es, ts), Among(ts), t);
  }

  lemma BlockIs(es: seq<Entry>, ts: seq<string>)
    ensures Block(es, ts) == Keep(es, Among(ts)) + New(es, ts)
  {
    AddAllAppends(es, ts);
    KeepAppend(es, New(es, ts), Among(ts));
    NewTitles(es, ts);
    KeepAll(New(es, ts), Among(ts));
  }

  lemma {:induction false} NewOfKeep(es: seq<Entry>, ts: seq<string>, titles: set<string>)
    requires Among(ts) <= titles
    ensures New(Keep(es, titles), ts) == New(es, ts)
  {
    if ts != [] {
      var init, t := ts[..|ts| - 1], ts[|ts| - 1];
      assert Among(init) <= titles && t in titles by { assert ts == init + [t]; }
      NewOfKeep(es, init, titles);
      HasOfAppend(es, New(es, init), t);
      HasOfAppend(Keep(es, titles), New(es, init), t);
      HasOfKeep(es, titles, t);
    }
  }

  lemma BlockOfKeep(es: seq<Entry>, ts: seq<string>)
    ensures Block(Keep(es, Among(ts)), ts) == Block(es, ts)
  {
    BlockIs(es, ts);
    BlockIs(Keep(es, Among(ts)), ts);
    KeepKeep(es, Among(ts), Among(ts));
    assert Among(ts) * Among(ts) == Among(ts);
    NewOfKeep(es, ts, Among(ts));
  }

  lemma {:induction false} OnlyTitles(ts: seq<string>, titles: set<string>)
    ensures Among(Only(ts, titles)) == Among(ts) * titles
  {
    if ts != [] {
      var init, last := ts[..|ts| - 1], ts[|ts| - 1];
      OnlyTitles(init, titles);
      assert ts == init + [last];
      forall t ensures t in Among(Only(ts, titles)) <==> t in Among(ts) * titles {
        assert t in Only(init, titles) <==> t in Among(Only(init, titles));
      }
    }
  }

  lemma {:induction false} KeepOfNew(es: seq<Entry>, ts: seq<string>, titles: set<string>)
    ensures Keep(New(es, ts), titles) == New(Keep(es, titles), Only(ts, titles))
  {
    if ts != [] {
      var init, t := ts[..|ts| - 1], ts[|ts| - 1];
      var before, kept := New(es, init), Only(init, titles);
      KeepOfNew(es, init, titles);
      if t in titles {
        assert Only(ts, titles) == kept + [t];
        assert (kept + [t])[..|kept|] == kept;
        KeepAppend(es, before, titles);
        HasOfKeep(es + before, titles, t);
      } else {
        assert Only(ts, titles) == kept;
      }
      if !Has(es + before, t) {
        KeepAppend(before, [Entry(Some(t), BLANK, "")], titles);
        KeepOne(Entry(Some(t), BLANK, ""), titles);
      }
    }
  }

  lemma KeepOne(e: Entry, titles: set<string>)
    ensures Keep([e], titles) == if Title(e) in titles then [e] else []
  {
    assert Keep([], titles) == [] && [e][..0] == [];
  }

  lemma KeepOfBlock(es: seq<Entry>, ts: seq<string>, titles: set<string>)
    ensures Keep(Block(es, ts), titles) == Block(Keep(es, titles), Only(ts, titles))
  {
    BlockIs(es, ts);
    BlockIs(Keep(es, titles), Only(ts, titles));
    KeepAppend(Keep(es, Among(ts)), New(es, ts), titles);
    KeepKeep(es, Among(ts), titles);
    OnlyTitles(ts, titles);
    KeepKeep(es, titles, Among(ts) * titles);
    assert titles * (Among(ts) * titles) == Among(ts) * titles;
    KeepOfNew(es, ts, titles);
  }

  // ---- whole runs of blocks ----

  function Blocks(es: seq<Entry>, bs: seq<seq<string>>): seq<Entry> {
    if bs == [] then es else Block(Blocks(es, bs[..|bs| - 1]), bs[|bs| - 1])
  }

  function OnlyEach(bs: seq<seq<string>>, titles: set<string>): (r: seq<seq<string>>)
    ensures |r| == |bs|
  {
    if bs == [] then [] else OnlyEach(bs[..|bs| - 1], titles) + [Only(bs[|bs| - 1], titles)]
  }

  lemma {:induction false} KeepOfBlocks(es: seq<Entry>, bs: seq<seq<string>>, titles: set<string>)
    ensures Keep(Blocks(es, bs), titles) == Blocks(Keep(es, titles), OnlyEach(bs, titles))
  {
    if bs != [] {
      var init, ts, kept := bs[..|bs| - 1], bs[|bs| - 1], OnlyEach(bs, titles);
      KeepOfBlocks(es, init, titles);
      KeepOfBlock(Blocks(es, init), ts, titles);
      assert kept[..|kept| - 1] == OnlyEach(init, titles) && kept[|kept| - 1] == Only(ts, titles);
    }
  }

  lemma {:induction false} NothingNew(es: seq<Entry>, ts: seq<string>)
    requires forall t :: t in ts ==> Has(es, t)
    ensures New(es, ts) == []
  {
    if ts != [] {
      assert ts == ts[..|ts| - 1] + [ts[|ts| - 1]];
      NothingNew(es, ts[..|ts| - 1]);
      assert es + [] == es;
    }
  }

  lemma BlockTwice(es: seq<Entry>, ts: seq<string>)
    ensures Block(Block(es, ts), ts) == Block(es, ts)
  {
    var after := Block(es, ts);
    forall t | t in ts ensures Has(after, t) { BlockHasAll(es, ts, t); }
    NothingNew(after, ts);
    BlockIs(after, ts);
    KeptTitles(AddAll(es, ts), Among(ts));
    KeepAll(after, Among(ts));
  }

  lemma NewIsFresh(es: seq<Entry>, init: seq<seq<string>>, ts: seq<string>)
    requires init != []
    ensures forall e :: e in New(Blocks(es, init), ts) ==> Title(e) !in Only(init[|init| - 1], Among(ts))
  {
    var before, last := Blocks(es, init), init[|init| - 1];
    NewTitles(before, ts);
    OnlyTitles(last, Among(ts));
    forall e | e in New(before, ts) ensures Title(e) !in Only(last, Among(ts)) {
      if Title(e) in last { BlockHasAll(Blocks(es, init[..|init| - 1]), last, Title(e)); }
      assert Title(e) in Only(last, Among(ts)) ==> Title(e) in Among(Only(last, Among(ts)));
    }
  }

  lemma KeepDropsMore(es: seq<Entry>, ts: seq<string>, more: seq<Entry>)
    requires forall e :: e in more ==> Title(e) !in ts
    ensures Keep(Block(es, ts) + more, Among(ts)) == Block(es, ts)
  {
    KeepAppend(Block(es, ts), more, Among(ts));
    KeptTitles(AddAll(es, ts), Among(ts));
    KeepAll(Block(es, ts), Among(ts));
    KeepNone(more, Among(ts));
  }

  /** What the last block makes of a run that starts from the previous result. */
  lemma RerunReachesLast(es: seq<Entry>, bs: seq<seq<string>>, more: seq<Entry>)
    requires bs != [] && forall e :: e in more ==> Title(e) !in bs[|bs| - 1]
    ensures var init, ts := bs[..|bs| - 1], bs[|bs| - 1];
      Blocks(Blocks(es, bs) + more, bs) == Block(Blocks(Blocks(es, bs), OnlyEach(init, Among(ts))), ts)
  {
    var init, ts := bs[..|bs| - 1], bs[|bs| - 1];
    var w := Blocks(es, bs) + more;
    KeepDropsMore(Blocks(es, init), ts, more);
    BlockOfKeep(Blocks(w, init), ts);
    KeepOfBlocks(w, init, Among(ts));
  }

  /** A second run changes nothing, even with entries appended that the last block would drop. */
  lemma {:induction false} BlocksAbsorb(es: seq<Entry>, bs: seq<seq<string>>, more: seq<Entry>)
    requires bs != [] && forall e :: e in more ==> Title(e) !in bs[|bs| - 1]
    ensures Blocks(Blocks(es, bs) + more, bs) == Blocks(es, bs)
    decreases |bs|
  {
    var init, ts := bs[..|bs| - 1], bs[|bs| - 1];
    var before, fewer := Blocks(es, init), OnlyEach(init, Among(ts));
    RerunReachesLast(es, bs, more);
    if init == [] {
      BlockTwice(es, ts);
    } else {
      NewIsFresh(es, init, ts);
      assert fewer[|fewer| - 1] == Only(init[|init| - 1], Among(ts));
      BlocksAbsorb(Keep(es, Among(ts)), fewer, New(before, ts));
      KeepOfBlocks(es, init, Among(ts));
      BlockIs(before, ts);
      BlockOfKeep(before, ts);
    }
  }
}
