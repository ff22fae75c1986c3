// Counting facts behind the level-synchronous Kahn loop: in-degrees are counted per edge.

module Kahn {
  import opened Sorting
  import opened Schedules

  /** How many edges leave `n` towards something outside `placed`. */
  ghost function Unmet(es: seq<Edge>, n: string, placed: set<string>): nat {
    if es == [] then 0
    else
      var e := es[|es| - 1];
      Unmet(es[..|es| - 1], n, placed) + (if e.src == n && e.dst !in placed then 1 else 0)
  }

  /** The sources of the edges into `t`, one per edge, in edge order. */
  ghost function Dependents(es: seq<Edge>, t: string): seq<string> {
    if es == [] then []
    else
      var e := es[|es| - 1];
      Dependents(es[..|es| - 1], t) + (if e.dst == t then [e.src] else [])
  }

  /** Placing `t` settles one unmet edge of `n` for every occurrence of `n` among the dependents of `t`. */
  lemma {:induction false} PlacingSettles(es: seq<Edge>, n: string, placed: set<string>, t: string)
    requires t !in placed
    ensures Unmet(es, n, placed) == Unmet(es, n, placed + {t}) + multiset(Dependents(es, t))[n]
  {
    if es != [] { PlacingSettles(es[..|es| - 1], n, placed, t); }
  }

  lemma {:induction false} NothingUnmet(es: seq<Edge>, n: string, placed: set<string>)
    ensures Unmet(es, n, placed) == 0 <==> forall e :: e in es && e.src == n ==> e.dst in placed
  {
    if es != [] {
      var last := es[|es| - 1];
      NothingUnmet(es[..|es| - 1], n, placed);
      assert es == es[..|es| - 1] + [last];
      forall e | e in es ensures e in es[..|es| - 1] || e == last {}
    }
  }

  lemma {:induction false} DependentsAreSources(es: seq<Edge>, t: string, x: string)
    requires x in Dependents(es, t)
    ensures exists e :: e in es && e.src == x && e.dst == t
  {
    var e := es[|es| - 1];
    if e.dst != t || e.src != x {
      DependentsAreSources(es[..|es| - 1], t, x);
      var f :| f in es[..|es| - 1] && f.src == x && f.dst == t;
      assert f in es;
    } else {
      assert e in es;
    }
  }

  lemma {:induction false} DistinctCount(s: seq<string>)
    requires Distinct(s)
    ensures |Members(s)| == |s|
  {
    var all := Members(s);
    if s == [] {
      assert all == {};
    } else {
      var rest := Members(s[1..]);
      DistinctCount(s[1..]);
      assert all == rest + {s[0]};
    }
  }

  lemma PlacedAppend(waves: seq<seq<string>>, wave: seq<string>)
    ensures Placed(waves + [wave]) == Placed(waves) + Members(wave)
  {
    var w := waves + [wave];
    forall x ensures x in Placed(w) <==> x in Placed(waves) || x in wave {
      if x in Placed(waves) { var k :| 0 <= k < |waves| && x in waves[k]; assert x in w[k]; }
      if x in wave { assert x in w[|waves|]; }
    }
  }

  /** The waves so far form a schedule prefix: everything but the last condition of IsSchedule. */
  ghost predicate Prefix(ids: seq<string>, es: seq<Edge>, waves: seq<seq<string>>) {
    && (forall k :: 0 <= k < |waves| ==> waves[k] != [] && Distinct(waves[k]))
    && WavesDisjoint(waves)
    && (forall n :: n in Placed(waves) ==> n in ids)
    && DependenciesEarlier(es, waves)
    && Tight(es, waves)
  }

  /** The next wave: exactly the unplaced nodes with nothing unmet. */
  ghost predicate IsFrontier(ids: seq<string>, es: seq<Edge>, placed: set<string>, ready: seq<string>) {
    && Distinct(ready)
    && forall n :: n in ready <==> n in ids && n !in placed && Unmet(es, n, placed) == 0
  }

  /** Each ready node waited for something in the last wave. */
  ghost predicate JustFreed(es: seq<Edge>, waves: seq<seq<string>>, ready: seq<string>) {
    waves != [] ==> forall n {:trigger DependsOnOneOf(es, n, waves[|waves| - 1])} ::
      n in ready ==> DependsOnOneOf(es, n, waves[|waves| - 1])
  }

  lemma PrefixGrows(ids: seq<string>, es: seq<Edge>, waves: seq<seq<string>>, wave: seq<string>)
    requires Prefix(ids, es, waves) && wave != []
    requires IsFrontier(ids, es, Placed(waves), wave) && JustFreed(es, waves, wave)
    ensures Prefix(ids, es, waves + [wave])
  {
    var w := waves + [wave];
    PlacedAppend(waves, wave);
    assert WavesDisjoint(w) by {
      forall j, k, n | 0 <= j < k < |w| && n in w[j] ensures n !in w[k] {
        if k == |waves| { assert n in Placed(waves); }
      }
    }
    forall k, e | 0 <= k < |w| && e in es && e.src in w[k] ensures InEarlierWave(w, k, e.dst) {
      if k < |waves| {
        assert InEarlierWave(waves, k, e.dst);
        var j :| 0 <= j < k && e.dst in waves[j];
        assert e.dst in w[j];
      } else {
        NothingUnmet(es, e.src, Placed(waves));
        var j :| 0 <= j < |waves| && e.dst in waves[j];
        assert e.dst in w[j];
      }
    }
    forall k, n | 1 <= k < |w| && n in w[k] ensures DependsOnOneOf(es, n, w[k - 1]) {
      if k < |waves| { assert DependsOnOneOf(es, n, waves[k - 1]); }
      else { assert DependsOnOneOf(es, n, waves[|waves| - 1]); }
    }
  }

  /** When no node is ready any more, what is left is stuck and the waves are a schedule. */
  lemma PrefixCompletes(ids: seq<string>, es: seq<Edge>, waves: seq<seq<string>>)
    requires Prefix(ids, es, waves) && Closed(ids, es)
    requires IsFrontier(ids, es, Placed(waves), [])
    ensures IsSchedule(ids, es, waves, Outside(ids, Placed(waves)))
  {
    var rest := Outside(ids, Placed(waves));
    forall n | n in rest ensures DependsOnOneOf(es, n, rest) {
      assert n !in [];
      NothingUnmet(es, n, Placed(waves));
      var e :| e in es && e.src == n && e.dst !in Placed(waves);
      assert e.dst in rest && HasEdge(es, n, e.dst);
    }
  }

  /** A node that becomes ready only now was waiting for a member of the wave just placed. */
  lemma FreedByWave(ids: seq<string>, es: seq<Edge>, waves: seq<seq<string>>, wave: seq<string>, ready: seq<string>)
    requires IsFrontier(ids, es, Placed(waves), wave)
    requires IsFrontier(ids, es, Placed(waves + [wave]), ready)
    ensures JustFreed(es, waves + [wave], ready)
  {
    PlacedAppend(waves, wave);
    forall n | n in ready ensures DependsOnOneOf(es, n, wave) {
      NothingUnmet(es, n, Placed(waves));
      NothingUnmet(es, n, Placed(waves + [wave]));
      var e :| e in es && e.src == n && e.dst !in Placed(waves);
      assert e.dst in wave && HasEdge(es, n, e.dst);
    }
    assert (waves + [wave])[|waves + [wave]| - 1] == wave;
  }
}
