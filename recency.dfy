/** The `recentPosts` ordering: JavaScript's `<` on strings, the comparator
    that puts a later `createdAt` first, and the result of a stable sort
    with that comparator. */
module Recency {
  import opened Posts

  /** `a < b` on two JavaScript strings: lexicographic by character, a proper
      prefix coming first. */
  function Less(a: string, b: string): (lt: bool)
    ensures lt ==> a != b
  {
    if |b| == 0 then false
    else if |a| == 0 then true
    else if a[0] != b[0] then a[0] < b[0]
    else Less(a[1..], b[1..])
  }

  lemma {:induction false} LessIrreflexive(a: string)
    ensures !Less(a, a)
  {
    if |a| > 0 { LessIrreflexive(a[1..]); }
  }

  lemma {:induction false} LessAsymmetric(a: string, b: string)
    ensures Less(a, b) ==> !Less(b, a)
  {
    if |a| > 0 && |b| > 0 && a[0] == b[0] { LessAsymmetric(a[1..], b[1..]); }
  }

  lemma {:induction false} LessTransitive(a: string, b: string, c: string)
    requires Less(a, b) && Less(b, c)
    ensures Less(a, c)
  {
    if |a| > 0 && a[0] == b[0] && b[0] == c[0] { LessTransitive(a[1..], b[1..], c[1..]); }
  }

  /** A proper prefix comes before the longer string, and no string comes
      before one of its own prefixes. */
  lemma {:induction false} LessPrefix(a: string, b: string)
    ensures a < b ==> Less(a, b)
    ensures b <= a ==> !Less(a, b)
  {
    if |a| > 0 && |b| > 0 && a[0] == b[0] {
      assert a < b ==> a[1..] < b[1..];
      assert b <= a ==> b[1..] <= a[1..];
      LessPrefix(a[1..], b[1..]);
    }
  }

  /** Two different strings are ordered one way or the other. */
  lemma {:induction false} LessTotal(a: string, b: string)
    requires a != b
    ensures Less(a, b) || Less(b, a)
  {
    if |a| > 0 && |b| > 0 && a[0] == b[0] {
      assert a == [a[0]] + a[1..] && b == [b[0]] + b[1..];
      LessTotal(a[1..], b[1..]);
    }
  }

  /** Exactly one of `a < b`, `a === b`, `a > b` holds. */
  lemma LessTrichotomous(a: string, b: string)
    ensures a == b ==> !Less(a, b) && !Less(b, a)
    ensures a != b ==> (Less(a, b) <==> !Less(b, a))
  {
    LessIrreflexive(a);
    LessAsymmetric(a, b);
    if a != b { LessTotal(a, b); }
  }

  /** The comparator of `recentPosts`: 1 when `p1` was created earlier (so it
      goes after `p2`), -1 when later, 0 otherwise. */
  function Compare(p1: Post, p2: Post): (c: int)
    ensures c == 0 <==> p1.createdAt == p2.createdAt
    ensures c > 0 <==> Less(p1.createdAt, p2.createdAt)
    ensures c < 0 <==> Less(p2.createdAt, p1.createdAt)
  {
    LessTrichotomous(p1.createdAt, p2.createdAt);
    if Less(p1.createdAt, p2.createdAt) then 1
    else if Less(p2.createdAt, p1.createdAt) then -1
    else 0
  }

  /** The comparator is consistent: swapping its arguments flips its sign. */
  lemma CompareAntisymmetric(p1: Post, p2: Post)
    ensures Compare(p1, p2) == -Compare(p2, p1)
  {
  }

  /** Newest first: no post is followed by one created later. */
  predicate NewestFirst(s: seq<Post>) {
    forall i, j :: 0 <= i < j < |s| ==> !Less(s[i].createdAt, s[j].createdAt)
  }

  /** A newest-first list is one the comparator never asks to reorder. */
  lemma NewestFirstByCompare(s: seq<Post>)
    ensures NewestFirst(s) <==> forall i, j :: 0 <= i < j < |s| ==> Compare(s[i], s[j]) <= 0
  {
  }

  /** The posts of `s` created at `t`, in their order in `s`. */
  function CreatedAt(s: seq<Post>, t: string): (r: seq<Post>)
    ensures |r| <= |s|
  {
    if s == [] then [] else (if s[0].createdAt == t then [s[0]] else []) + CreatedAt(s[1..], t)
  }

  /** `s` and `r` list the posts of each creation time in the same order:
      what a stable sort keeps. */
  ghost predicate SameTies(s: seq<Post>, r: seq<Post>) {
    forall t :: CreatedAt(s, t) == CreatedAt(r, t)
  }

  /** Inserts `x` into a newest-first list after every post created at the
      same time or later. */
  function Insert(s: seq<Post>, x: Post): (r: seq<Post>)
    ensures |r| == |s| + 1
  {
    if s == [] then [x]
    else if Less(s[0].createdAt, x.createdAt) then [x] + s
    else [s[0]] + Insert(s[1..], x)
  }

  /** What the stable `Array.prototype.sort` with `Compare` leaves in the array. */
  function SortNewestFirst(s: seq<Post>): (r: seq<Post>)
    ensures |r| == |s|
  {
    if s == [] then [] else Insert(SortNewestFirst(s[..|s| - 1]), s[|s| - 1])
  }

  lemma {:induction false} CreatedAtAppend(a: seq<Post>, b: seq<Post>, t: string)
    ensures CreatedAt(a + b, t) == CreatedAt(a, t) + CreatedAt(b, t)
  {
    if a == [] {
      assert a + b == b;
    } else {
      var h := if a[0].createdAt == t then [a[0]] else [];
      assert (a + b)[0] == a[0];
      assert (a + b)[1..] == a[1..] + b;
      CreatedAtAppend(a[1..], b, t);
      calc {
        CreatedAt(a + b, t);
        h + CreatedAt(a[1..] + b, t);
        h + (CreatedAt(a[1..], t) + CreatedAt(b, t));
        (h + CreatedAt(a[1..], t)) + CreatedAt(b, t);
        CreatedAt(a, t) + CreatedAt(b, t);
      }
    }
  }

  lemma {:induction false} InsertPermutes(s: seq<Post>, x: Post)
    ensures multiset(Insert(s, x)) == multiset(s) + multiset{x}
  {
    if s != [] && !Less(s[0].createdAt, x.createdAt) {
      InsertPermutes(s[1..], x);
      assert s == [s[0]] + s[1..];
    }
  }

  /** In a newest-first list, a post created strictly later than the head is
      later than every post. */
  lemma LaterThanAll(s: seq<Post>, x: Post, j: int)
    requires NewestFirst(s) && 0 <= j < |s|
    requires Less(s[0].createdAt, x.createdAt)
    ensures Less(s[j].createdAt, x.createdAt)
  {
    if j > 0 && s[j].createdAt != s[0].createdAt {
      assert !Less(s[0].createdAt, s[j].createdAt);
      LessTrichotomous(s[0].createdAt, s[j].createdAt);
      LessTransitive(s[j].createdAt, s[0].createdAt, x.createdAt);
    }
  }

  lemma {:induction false} InsertKeepsOrder(s: seq<Post>, x: Post)
    requires NewestFirst(s)
    ensures NewestFirst(Insert(s, x))
  {
    if s == [] {
    } else if Less(s[0].createdAt, x.createdAt) {
      var r := [x] + s;
      forall i, j | 0 <= i < j < |r| ensures !Less(r[i].createdAt, r[j].createdAt) {
        if i == 0 {
          LaterThanAll(s, x, j - 1);
          LessAsymmetric(s[j - 1].createdAt, x.createdAt);
        } else {
          assert !Less(s[i - 1].createdAt, s[j - 1].createdAt);
        }
      }
    } else {
      InsertKeepsOrder(s[1..], x);
      InsertPermutes(s[1..], x);
      var r := [s[0]] + Insert(s[1..], x);
      forall i, j | 0 <= i < j < |r| ensures !Less(r[i].createdAt, r[j].createdAt) {
        if i == 0 {
          var y := r[j];
          assert y in multiset(Insert(s[1..], x));
          if y != x {
            var k :| 0 <= k < |s[1..]| && s[1..][k] == y;
            assert !Less(s[0].createdAt, s[k + 1].createdAt);
          }
        } else {
          assert !Less(Insert(s[1..], x)[i - 1].createdAt, Insert(s[1..], x)[j - 1].createdAt);
        }
      }
    }
  }

  lemma {:induction false} InsertTies(s: seq<Post>, x: Post, t: string)
    requires NewestFirst(s)
    ensures CreatedAt(Insert(s, x), t) == CreatedAt(s, t) + (if x.createdAt == t then [x] else [])
  {
    var tail := if x.createdAt == t then [x] else [];
    if s == [] {
      CreatedAtCons(x, [], t);
    } else if Less(s[0].createdAt, x.createdAt) {
      if x.createdAt == t {
        NoneCreatedAt(s, t);
      }
      CreatedAtCons(x, s, t);
    } else {
      var h := if s[0].createdAt == t then [s[0]] else [];
      var rest := Insert(s[1..], x);
      assert Insert(s, x) == [s[0]] + rest;
      TailNewestFirst(s);
      InsertTies(s[1..], x, t);
      CreatedAtCons(s[0], rest, t);
      CreatedAtCons(s[0], s[1..], t);
      assert [s[0]] + s[1..] == s;
      assert h + (CreatedAt(s[1..], t) + tail) == (h + CreatedAt(s[1..], t)) + tail;
    }
  }

  lemma CreatedAtCons(p: Post, s: seq<Post>, t: string)
    ensures CreatedAt([p] + s, t) == (if p.createdAt == t then [p] else []) + CreatedAt(s, t)
  {
    assert ([p] + s)[1..] == s;
  }

  /** No post of a newest-first list is created at a time later than its head. */
  lemma NoneCreatedAt(s: seq<Post>, t: string)
    requires NewestFirst(s) && s != []
    requires Less(s[0].createdAt, t)
    ensures CreatedAt(s, t) == []
  {
    var x := Post("", "", "", t, "");
    forall j | 0 <= j < |s| ensures s[j].createdAt != t {
      LaterThanAll(s, x, j);
      LessIrreflexive(t);
    }
    NoPostCreatedAt(s, t);
  }

  lemma {:induction false} NoPostCreatedAt(s: seq<Post>, t: string)
    requires forall j :: 0 <= j < |s| ==> s[j].createdAt != t
    ensures CreatedAt(s, t) == []
  {
    if s != [] {
      assert forall j :: 0 <= j < |s[1..]| ==> s[1..][j] == s[j + 1];
      NoPostCreatedAt(s[1..], t);
    }
  }

  lemma {:induction false} SortNewestFirstPermutes(s: seq<Post>)
    ensures multiset(SortNewestFirst(s)) == multiset(s)
  {
    if s != [] {
      var n := |s| - 1;
      var prev := SortNewestFirst(s[..n]);
      var x := s[n];
      assert SortNewestFirst(s) == Insert(prev, x);
      SortNewestFirstPermutes(s[..n]);
      InsertPermutes(prev, x);
      MultisetSnoc(s);
    }
  }

  lemma MultisetSnoc(s: seq<Post>)
    requires s != []
    ensures multiset(s) == multiset(s[..|s| - 1]) + multiset{s[|s| - 1]}
  {
    assert s == s[..|s| - 1] + [s[|s| - 1]];
  }

  lemma {:induction false} SortNewestFirstOrders(s: seq<Post>)
    ensures NewestFirst(SortNewestFirst(s))
  {
    if s != [] {
      var n := |s| - 1;
      SortNewestFirstOrders(s[..n]);
      InsertKeepsOrder(SortNewestFirst(s[..n]), s[n]);
    }
  }

  /** The sorted list is newest-first and a permutation of the input. */
  lemma SortNewestFirstCorrect(s: seq<Post>)
    ensures NewestFirst(SortNewestFirst(s))
    ensures multiset(SortNewestFirst(s)) == multiset(s)
    ensures |SortNewestFirst(s)| == |s|
  {
    SortNewestFirstPermutes(s);
    SortNewestFirstOrders(s);
    assert |multiset(SortNewestFirst(s))| == |multiset(s)|;
  }

  /** The sort is stable: posts created at the same time keep their order. */
  lemma {:induction false} SortNewestFirstStable(s: seq<Post>)
    ensures SameTies(s, SortNewestFirst(s))
  {
    if s != [] {
      var n := |s| - 1;
      var prev := SortNewestFirst(s[..n]);
      SortNewestFirstStable(s[..n]);
      SortNewestFirstOrders(s[..n]);
      assert s == s[..n] + [s[n]];
      forall t ensures CreatedAt(s, t) == CreatedAt(SortNewestFirst(s), t) {
        var last := if s[n].createdAt == t then [s[n]] else [];
        InsertTies(prev, s[n], t);
        CreatedAtAppend(s[..n], [s[n]], t);
        assert CreatedAt([s[n]], t) == last + CreatedAt([], t);
        calc {
          CreatedAt(s, t);
          CreatedAt(s[..n], t) + last;
          CreatedAt(prev, t) + last;
          CreatedAt(Insert(prev, s[n]), t);
        }
      }
    }
  }

  lemma TailNewestFirst(s: seq<Post>)
    requires NewestFirst(s) && s != []
    ensures NewestFirst(s[1..])
  {
    forall i, j | 0 <= i < j < |s[1..]| ensures !Less(s[1..][i].createdAt, s[1..][j].createdAt) {
      assert !Less(s[i + 1].createdAt, s[j + 1].createdAt);
    }
  }

  /** The head of a list is among the posts created at its time. */
  lemma HeadTie(s: seq<Post>)
    ensures s != [] ==> CreatedAt(s, s[0].createdAt) == [s[0]] + CreatedAt(s[1..], s[0].createdAt)
  {
  }

  /** A newest-first list has no post created later than its head. */
  lemma LaterThanHeadAbsent(s: seq<Post>, t: string)
    requires NewestFirst(s) && s != []
    ensures Less(s[0].createdAt, t) ==> CreatedAt(s, t) == []
  {
    if Less(s[0].createdAt, t) { NoneCreatedAt(s, t); }
  }

  /** Two non-empty newest-first lists with the same ties start at the same
      creation time. */
  lemma HeadsAgree(a: seq<Post>, b: seq<Post>)
    requires NewestFirst(a) && NewestFirst(b) && SameTies(a, b) && a != [] && b != []
    ensures a[0].createdAt == b[0].createdAt
  {
    LessTrichotomous(a[0].createdAt, b[0].createdAt);
    HeadTie(a);
    HeadTie(b);
    LaterThanHeadAbsent(a, b[0].createdAt);
    LaterThanHeadAbsent(b, a[0].createdAt);
  }

  /** Two newest-first lists with the same posts per creation time in the same
      order are equal: every stable sort with `Compare` leaves the same array. */
  lemma {:induction false} StableSortUnique(a: seq<Post>, b: seq<Post>)
    requires NewestFirst(a) && NewestFirst(b) && SameTies(a, b)
    ensures a == b
    decreases |a|
  {
    HeadTie(a);
    HeadTie(b);
    if a != [] && b != [] {
      var t0 := a[0].createdAt;
      HeadsAgree(a, b);
      assert CreatedAt(a, t0) == CreatedAt(b, t0);
      assert a[0] == CreatedAt(a, t0)[0] == CreatedAt(b, t0)[0] == b[0];
      forall t ensures CreatedAt(a[1..], t) == CreatedAt(b[1..], t) {
        assert CreatedAt(a, t) == CreatedAt(b, t);
        var h := if a[0].createdAt == t then [a[0]] else [];
        assert CreatedAt(a, t) == h + CreatedAt(a[1..], t);
        assert CreatedAt(b, t) == h + CreatedAt(b[1..], t);
        assert CreatedAt(a[1..], t) == (h + CreatedAt(a[1..], t))[|h|..];
      }
      TailNewestFirst(a);
      TailNewestFirst(b);
      StableSortUnique(a[1..], b[1..]);
      assert a == [a[0]] + a[1..] && b == [b[0]] + b[1..];
    }
  }

  /** `SortNewestFirst(s)` is the only newest-first arrangement of `s` that
      keeps posts created at the same time in their order, so it is what the
      engine's stable sort produces whatever its algorithm. */
  lemma SortNewestFirstIsTheStableSort(s: seq<Post>, r: seq<Post>)
    requires NewestFirst(r) && SameTies(s, r)
    ensures r == SortNewestFirst(s)
  {
    SortNewestFirstCorrect(s);
    SortNewestFirstStable(s);
    StableSortUnique(r, SortNewestFirst(s));
  }
}
