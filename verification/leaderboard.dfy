/** The leaderboard (`listLeaderboard`): every stored result is reduced to
    one entry per user holding that user's best score, the entries are sorted
    by score, highest first, and the first ten are returned. The database's
    own ordering of the results is not modelled: the properties below hold for
    the results in any order. */
module Leaderboard {
  import opened Js

  /** A result's `user` after population: the user's id (an ObjectId's
      string) and e-mail, with a missing e-mail written as `""`. */
  datatype Person = Person(id: string, email: string)

  /** A stored result as the reduction reads it; `user` is `None` when the
      result has no user or the user no longer exists. */
  datatype Stored = Stored(user: Option<Person>, score: real, total: real)

  /** One leaderboard row: `{user, score, total}`, keyed by the user's id. */
  datatype Entry = Entry(userId: string, user: string, score: real, total: real)

  /** `r.user?._id?.toString() || r.user?.toString()`: the key a result is
      grouped under; `None` (falsy) results are skipped. A populated user
      whose id prints as the empty string falls back to the document's own
      string, `[object Object]`. */
  function Key(r: Stored): (k: Option<string>)
    ensures k.Some? <==> r.user.Some?
  {
    match r.user
    case None => None
    case Some(p) => if p.id != "" then Some(p.id) else Some("[object Object]")
  }

  /** `r.user?.email || "Anonymous"` */
  function Label(r: Stored): (s: string)
    ensures s != ""
  {
    if r.user.Some? && r.user.value.email != "" then r.user.value.email else "Anonymous"
  }

  function EntryOf(r: Stored): (e: Entry)
    requires Key(r).Some?
    ensures e.userId == Key(r).value && e.score == r.score && e.total == r.total
  {
    Entry(Key(r).value, Label(r), r.score, r.total)
  }

  /** The position of user `u`'s entry in the map's insertion order, or
      `|best|` when `best.get(u)` is undefined. */
  function Find(best: seq<Entry>, u: string): (i: nat)
    ensures i <= |best|
    ensures i < |best| ==> best[i].userId == u
    ensures forall k :: 0 <= k < i ==> best[k].userId != u
  {
    if |best| == 0 then 0 else if best[0].userId == u then 0 else 1 + Find(best[1..], u)
  }

  /** One iteration of the reduction loop: a result with no key is skipped;
      a new user is appended; a known user's entry is replaced only by a
      strictly higher score, so the first of equal best scores stays. */
  function Step(best: seq<Entry>, r: Stored): seq<Entry> {
    match Key(r)
    case None => best
    case Some(u) =>
      var i := Find(best, u);
      if i == |best| then best + [EntryOf(r)]
      else if best[i].score < r.score then best[i := EntryOf(r)]
      else best
  }

  /** `best`'s values, in insertion order, after the loop over `results`. */
  function Reduce(results: seq<Stored>): seq<Entry> {
    if |results| == 0 then [] else Step(Reduce(results[..|results| - 1]), results[|results| - 1])
  }

  /** Places `x` after every entry whose score is at least its own: the
      insertion step of a stable sort by `b.score - a.score`. */
  function Insert(sorted: seq<Entry>, x: Entry): (r: seq<Entry>)
    ensures |r| == |sorted| + 1
    ensures multiset(r) == multiset(sorted) + multiset{x}
  {
    if |sorted| == 0 then [x]
    else if sorted[0].score >= x.score then
      assert sorted == [sorted[0]] + sorted[1..];
      [sorted[0]] + Insert(sorted[1..], x)
    else [x] + sorted
  }

  /** `Array.prototype.sort((a, b) => b.score - a.score)`, which is stable. */
  function SortDesc(s: seq<Entry>): (r: seq<Entry>)
    ensures |r| == |s|
    ensures multiset(r) == multiset(s)
  {
    if |s| == 0 then []
    else
      assert s == s[..|s| - 1] + [s[|s| - 1]];
      Insert(SortDesc(s[..|s| - 1]), s[|s| - 1])
  }

  /** The response: at most the first ten sorted entries (`slice(0, 10)`). */
  function Top(best: seq<Entry>): seq<Entry> {
    var sorted := SortDesc(best);
    if |sorted| <= 10 then sorted else sorted[..10]
  }

  function Leaderboard(results: seq<Stored>): seq<Entry> {
    Top(Reduce(results))
  }

  // ---------------------------------------------------------------------
  // Specification

  ghost predicate Descending(s: seq<Entry>) {
    forall i, j :: 0 <= i < j < |s| ==> s[i].score >= s[j].score
  }

  ghost predicate DistinctUsers(s: seq<Entry>) {
    forall i, j :: 0 <= i < j < |s| ==> s[i].userId != s[j].userId
  }

  /** `e` is user `e.userId`'s best result, taken from `results[j]`: no result
      of that user scores more, and every earlier one scores strictly less. */
  ghost predicate IsBest(results: seq<Stored>, e: Entry, j: int) {
    && 0 <= j < |results|
    && Key(results[j]) == Some(e.userId)
    && e == EntryOf(results[j])
    && (forall i :: 0 <= i < |results| && Key(results[i]) == Some(e.userId) ==> results[i].score <= e.score)
    && (forall i :: 0 <= i < j && Key(results[i]) == Some(e.userId) ==> results[i].score < e.score)
  }

  // ---------------------------------------------------------------------
  // The reduction

  lemma FindAbsent(best: seq<Entry>, u: string, k: nat)
    requires k < |best| && best[k].userId == u
    ensures Find(best, u) < |best|
  {
  }

  lemma StepDistinct(best: seq<Entry>, r: Stored)
    requires DistinctUsers(best)
    ensures DistinctUsers(Step(best, r))
  {
    if Key(r).Some? {
      var u := Key(r).value;
      var i := Find(best, u);
      if i == |best| {
        var next := best + [EntryOf(r)];
        forall a, b | 0 <= a < b < |next|
          ensures next[a].userId != next[b].userId
        {
          if b == |best| {
            assert next[a] == best[a];
          }
        }
      }
    }
  }

  /** The map holds at most one entry per user. */
  lemma {:induction false} ReduceDistinct(results: seq<Stored>)
    ensures DistinctUsers(Reduce(results))
    decreases |results|
  {
    if |results| > 0 {
      ReduceDistinct(results[..|results| - 1]);
      StepDistinct(Reduce(results[..|results| - 1]), results[|results| - 1]);
    }
  }

  /** A step never drops a user's entry. */
  lemma StepKeeps(best: seq<Entry>, r: Stored, u: string)
    requires Find(best, u) < |best|
    ensures Find(Step(best, r), u) < |Step(best, r)|
  {
    var k := Find(best, u);
    var next := Step(best, r);
    if Key(r).Some? {
      var i := Find(best, Key(r).value);
      if i == |best| {
        assert next[k] == best[k];
        FindAbsent(next, u, k);
      } else if best[i].score < r.score {
        assert next[k].userId == u;
        FindAbsent(next, u, k);
      }
    }
  }

  lemma StepAdds(best: seq<Entry>, r: Stored)
    requires Key(r).Some?
    ensures Find(Step(best, r), Key(r).value) < |Step(best, r)|
  {
    var u := Key(r).value;
    var next := Step(best, r);
    if Find(best, u) == |best| {
      FindAbsent(next, u, |best|);
    } else {
      StepKeeps(best, r, u);
    }
  }

  /** Every user with a result has an entry. */
  lemma {:induction false} ReduceCovers(results: seq<Stored>, i: int)
    requires 0 <= i < |results| && Key(results[i]).Some?
    ensures Find(Reduce(results), Key(results[i]).value) < |Reduce(results)|
    decreases |results|
  {
    var n := |results| - 1;
    var init := results[..n];
    if i == n {
      StepAdds(Reduce(init), results[n]);
    } else {
      assert init[i] == results[i];
      ReduceCovers(init, i);
      StepKeeps(Reduce(init), results[n], Key(results[i]).value);
    }
  }

  /** Adding a result of another user keeps an entry the best of its user. */
  lemma IsBestExtends(results: seq<Stored>, e: Entry, j: int, r: Stored)
    requires IsBest(results, e, j)
    requires Key(r) != Some(e.userId) || r.score <= e.score
    ensures IsBest(results + [r], e, j)
  {
    var ext := results + [r];
    forall i | 0 <= i < |ext| && Key(ext[i]) == Some(e.userId)
      ensures ext[i].score <= e.score
    {
      if i < |results| {
        assert ext[i] == results[i];
      }
    }
    forall i | 0 <= i < j && Key(ext[i]) == Some(e.userId)
      ensures ext[i].score < e.score
    {
      assert ext[i] == results[i];
    }
  }

  /** A result that beats every earlier result of its user is that user's best. */
  lemma IsBestNew(results: seq<Stored>, r: Stored)
    requires Key(r).Some?
    requires forall i :: 0 <= i < |results| && Key(results[i]) == Key(r) ==> results[i].score < r.score
    ensures IsBest(results + [r], EntryOf(r), |results|)
  {
    var ext := results + [r];
    forall i | 0 <= i < |ext| && Key(ext[i]) == Key(r)
      ensures ext[i].score <= r.score
    {
      if i < |results| {
        assert ext[i] == results[i];
      }
    }
    forall i | 0 <= i < |results| && Key(ext[i]) == Key(r)
      ensures ext[i].score < r.score
    {
      assert ext[i] == results[i];
    }
  }

  /** With no entry for a user, no earlier result has that user's key. */
  lemma AbsentHasNoResults(results: seq<Stored>, u: string)
    requires Find(Reduce(results), u) == |Reduce(results)|
    ensures forall i :: 0 <= i < |results| && Key(results[i]) == Some(u) ==> false
  {
    forall i | 0 <= i < |results| && Key(results[i]) == Some(u)
      ensures false
    {
      ReduceCovers(results, i);
    }
  }

  /** Each entry of the reduction is its user's first best result. */
  lemma {:induction false} ReduceIsBest(results: seq<Stored>, k: int)
    requires 0 <= k < |Reduce(results)|
    ensures exists j :: IsBest(results, Reduce(results)[k], j)
    decreases |results|
  {
    var n := |results| - 1;
    var init, r := results[..n], results[n];
    assert results == init + [r];
    var best := Reduce(init);
    ReduceDistinct(init);
    match Key(r)
    case None =>
      ReduceIsBest(init, k);
      var j :| IsBest(init, best[k], j);
      IsBestExtends(init, best[k], j, r);
    case Some(u) =>
      var i := Find(best, u);
      if i == |best| {
        if k < |best| {
          ReduceIsBest(init, k);
          var j :| IsBest(init, best[k], j);
          assert best[k].userId != u;
          IsBestExtends(init, best[k], j, r);
          assert Reduce(results)[k] == best[k];
        } else {
          AbsentHasNoResults(init, u);
          IsBestNew(init, r);
          assert Reduce(results)[k] == EntryOf(r);
          assert IsBest(results, Reduce(results)[k], n);
        }
      } else if best[i].score < r.score {
        ReduceIsBest(init, i);
        var j :| IsBest(init, best[i], j);
        if k == i {
          IsBestNew(init, r);
          assert Reduce(results)[k] == EntryOf(r);
          assert IsBest(results, Reduce(results)[k], n);
        } else {
          ReduceIsBest(init, k);
          var j' :| IsBest(init, best[k], j');
          assert best[k].userId != u;
          IsBestExtends(init, best[k], j', r);
          assert Reduce(results)[k] == best[k];
        }
      } else {
        ReduceIsBest(init, k);
        var j :| IsBest(init, best[k], j);
        IsBestExtends(init, best[k], j, r);
      }
  }

  // ---------------------------------------------------------------------
  // The sort

  lemma InsertHead(sorted: seq<Entry>, x: Entry)
    ensures Insert(sorted, x)[0] == if |sorted| > 0 && sorted[0].score >= x.score then sorted[0] else x
  {
  }

  /** An entry scoring at least the head of a descending sequence can go in
      front of it. */
  lemma ConsDescending(h: Entry, t: seq<Entry>)
    requires Descending(t)
    requires |t| > 0 ==> h.score >= t[0].score
    ensures Descending([h] + t)
  {
    var r := [h] + t;
    forall i, j | 0 <= i < j < |r|
      ensures r[i].score >= r[j].score
    {
      assert r[j] == t[j - 1];
      if i == 0 {
        assert t[0].score >= t[j - 1].score;
      } else {
        assert r[i] == t[i - 1];
      }
    }
  }

  lemma {:induction false} InsertDescending(sorted: seq<Entry>, x: Entry)
    requires Descending(sorted)
    ensures Descending(Insert(sorted, x))
    decreases |sorted|
  {
    if |sorted| > 0 && sorted[0].score >= x.score {
      var tail := sorted[1..];
      assert Descending(tail) by {
        assert forall i, j | 0 <= i < j < |tail| :: tail[i] == sorted[i + 1] && tail[j] == sorted[j + 1];
      }
      InsertDescending(tail, x);
      InsertHead(tail, x);
      ConsDescending(sorted[0], Insert(tail, x));
    } else if |sorted| > 0 {
      ConsDescending(x, sorted);
    }
  }

  /** The sort orders the entries by score, highest first. */
  lemma {:induction false} SortDescending(s: seq<Entry>)
    ensures Descending(SortDesc(s))
    decreases |s|
  {
    if |s| > 0 {
      SortDescending(s[..|s| - 1]);
      InsertDescending(SortDesc(s[..|s| - 1]), s[|s| - 1]);
    }
  }

  /** An entry is in a sequence exactly when it is in its permutation. */
  lemma SameElements(a: seq<Entry>, b: seq<Entry>, e: Entry)
    requires multiset(a) == multiset(b)
    ensures e in a <==> e in b
  {
    assert e in a <==> e in multiset(a);
    assert e in b <==> e in multiset(b);
  }

  /** Reordering keeps users distinct. */
  lemma PermutationDistinct(a: seq<Entry>, b: seq<Entry>)
    requires multiset(a) == multiset(b) && DistinctUsers(a)
    ensures DistinctUsers(b)
  {
    forall i, j | 0 <= i < j < |b| && b[i].userId == b[j].userId
      ensures false
    {
      var x, y := b[i], b[j];
      if x == y {
        assert multiset(b)[x] >= 2 by {
          assert b == b[..j] + b[j..];
          assert x in b[..j] && x in b[j..];
          assert multiset(b) == multiset(b[..j]) + multiset(b[j..]);
        }
        AtMostOnce(a, x);
      } else {
        SameElements(a, b, x);
        SameElements(a, b, y);
      }
    }
  }

  /** With distinct users, no entry occurs twice. */
  lemma {:induction false} AtMostOnce(a: seq<Entry>, x: Entry)
    requires DistinctUsers(a)
    ensures multiset(a)[x] <= 1
    decreases |a|
  {
    if |a| > 0 {
      var init := a[..|a| - 1];
      assert a == init + [a[|a| - 1]];
      AtMostOnce(init, x);
    }
  }

  // ---------------------------------------------------------------------
  // The response

  /** At most ten entries, highest score first, one per user. */
  lemma LeaderboardShape(results: seq<Stored>)
    ensures |Leaderboard(results)| <= 10
    ensures |Leaderboard(results)| == if |Reduce(results)| <= 10 then |Reduce(results)| else 10
    ensures Descending(Leaderboard(results))
    ensures DistinctUsers(Leaderboard(results))
  {
    var best := Reduce(results);
    var sorted := SortDesc(best);
    SortDescending(best);
    ReduceDistinct(results);
    PermutationDistinct(best, sorted);
  }

  /** Every row is its user's best result; of equal best scores, the first. */
  lemma LeaderboardRowsAreBest(results: seq<Stored>, k: int)
    requires 0 <= k < |Leaderboard(results)|
    ensures exists j :: IsBest(results, Leaderboard(results)[k], j)
  {
    var best := Reduce(results);
    var sorted := SortDesc(best);
    SortDescending(best);
    var e := Leaderboard(results)[k];
    assert e == sorted[k];
    SameElements(best, sorted, e);
    var p :| 0 <= p < |best| && best[p] == e;
    ReduceIsBest(results, p);
  }

  /** A user missing from the board has no result above the last row. */
  lemma LeaderboardIsTop(results: seq<Stored>, i: int)
    requires 0 <= i < |results| && Key(results[i]).Some?
    ensures || (exists k :: 0 <= k < |Leaderboard(results)| && Leaderboard(results)[k].userId == Key(results[i]).value)
            || (|Leaderboard(results)| == 10 && results[i].score <= Leaderboard(results)[9].score)
  {
    var u := Key(results[i]).value;
    var best := Reduce(results);
    var sorted := SortDesc(best);
    SortDescending(best);
    ReduceCovers(results, i);
    var p := Find(best, u);
    ReduceIsBest(results, p);
    var j :| IsBest(results, best[p], j);
    SameElements(best, sorted, best[p]);
    var q :| 0 <= q < |sorted| && sorted[q] == best[p];
    if q < 10 {
      assert Leaderboard(results)[q] == sorted[q];
    } else {
      assert Leaderboard(results)[9] == sorted[9];
    }
  }
}
