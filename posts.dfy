/** The post records of the store and the array built-ins the mutations use
    on them: `findIndex`, `find` and `splice`, with the ECMAScript meaning of
    a negative start index. */
module Posts {
  import opened Wrappers

  /** A post as the server returns it; `id` is assigned by the server and
      the two timestamps are ISO-8601 strings, treated here as opaque. */
  datatype Post = Post(id: string, title: string, body: string, createdAt: string, updatedAt: string)

  /** The record `createPost` sends to the server, which adds the `id`. */
  datatype PostFields = PostFields(title: string, body: string, createdAt: string, updatedAt: string)

  /** Some post of `ps` carries the identifier `id`. */
  predicate HasId(ps: seq<Post>, id: string) {
    exists j :: 0 <= j < |ps| && ps[j].id == id
  }

  /** `i` is the position of the first post of `ps` whose identifier is `id`. */
  predicate IsFirstWithId(ps: seq<Post>, id: string, i: int) {
    0 <= i < |ps| && ps[i].id == id && forall j :: 0 <= j < i ==> ps[j].id != id
  }

  /** `ps.findIndex(p => p.id === id)`: the first matching index, or -1. */
  function FindIndex(ps: seq<Post>, id: string): (r: int)
    ensures -1 <= r < |ps|
    ensures r == -1 <==> !HasId(ps, id)
    ensures r != -1 ==> IsFirstWithId(ps, id, r)
  {
    if ps == [] then -1
    else if ps[0].id == id then 0
    else
      var k := FindIndex(ps[1..], id);
      assert forall j :: 1 <= j < |ps| ==> ps[j] == ps[1..][j - 1];
      if k == -1 then -1 else k + 1
  }

  /** `ps.find(p => p.id === id)`: the first matching post, or `undefined`. */
  function Find(ps: seq<Post>, id: string): (r: Option<Post>)
    ensures r.None? <==> !HasId(ps, id)
    ensures r.Some? ==> exists i :: IsFirstWithId(ps, id, i) && r.value == ps[i]
  {
    if ps == [] then None
    else if ps[0].id == id then
      assert IsFirstWithId(ps, id, 0);
      Some(ps[0])
    else
      var r := Find(ps[1..], id);
      assert forall j :: 1 <= j < |ps| ==> ps[j] == ps[1..][j - 1];
      if r.Some? then
        var i :| IsFirstWithId(ps[1..], id, i) && r.value == ps[1..][i];
        assert IsFirstWithId(ps, id, i + 1);
        r
      else r
  }

  /** `find` and `findIndex` with the same predicate agree: `find` yields the
      element at the index `findIndex` reports. */
  lemma FindAtFindIndex(ps: seq<Post>, id: string)
    ensures Find(ps, id) == if FindIndex(ps, id) == -1 then None else Some(ps[FindIndex(ps, id)])
  {
    if HasId(ps, id) {
      assert Find(ps, id).Some?;
      var i :| IsFirstWithId(ps, id, i) && Find(ps, id).value == ps[i];
      FirstWithIdUnique(ps, id, i, FindIndex(ps, id));
    }
  }

  /** There is only one first position. */
  lemma FirstWithIdUnique(ps: seq<Post>, id: string, i: int, k: int)
    requires IsFirstWithId(ps, id, i) && IsFirstWithId(ps, id, k)
    ensures i == k
  {
  }

  /** The position `Array.prototype.splice` starts at for a start argument
      `start` on an array of length `len`: a negative start counts from the
      end and is clamped at 0, a large one is clamped at `len`. */
  function SpliceStart(len: nat, start: int): (s: nat)
    ensures s <= len
    ensures 0 <= start <= len ==> s == start
    ensures start == -1 ==> s == if len == 0 then 0 else len - 1
  {
    if start < 0 then (if len + start < 0 then 0 else len + start)
    else if start < len then start else len
  }

  /** How many elements `splice` removes from position `s` of an array of
      length `len`: the requested count, clamped between 0 and what is left. */
  function SpliceDeleteCount(len: nat, s: nat, deleteCount: int): (d: nat)
    requires s <= len
    ensures d <= len - s
    ensures 0 <= deleteCount <= len - s ==> d == deleteCount
  {
    if deleteCount < 0 then 0 else if deleteCount < len - s then deleteCount else len - s
  }

  /** The array `ps.splice(start, deleteCount, ...items)` leaves behind: the
      prefix before the start is kept, the items follow, then whatever the
      deletion left of the rest. */
  function Splice(ps: seq<Post>, start: int, deleteCount: int, items: seq<Post>): (r: seq<Post>)
    ensures var s := SpliceStart(|ps|, start);
      var d := SpliceDeleteCount(|ps|, s, deleteCount);
      && |r| == |ps| - d + |items|
      && r[..s] == ps[..s]
      && r[s..s + |items|] == items
      && r[s + |items|..] == ps[s + d..]
  {
    var s := SpliceStart(|ps|, start);
    var d := SpliceDeleteCount(|ps|, s, deleteCount);
    var r := ps[..s] + items + ps[s + d..];
    assert r[..s] == ps[..s];
    assert r[s..s + |items|] == items;
    assert r[s + |items|..] == ps[s + d..];
    r
  }

  /** The list the `updatePost` mutation leaves: `splice(findIndex(...), 1, post)`.
      It always holds the post; the length is kept unless the list was empty. */
  function ReplaceFirst(ps: seq<Post>, post: Post): (r: seq<Post>)
    ensures |r| == if ps == [] then 1 else |ps|
    ensures post in r
  {
    var i := FindIndex(ps, post.id);
    var s := SpliceStart(|ps|, i);
    assert ps != [] ==> s < |ps|;
    var r := Splice(ps, i, 1, [post]);
    assert r[s..s + 1] == [post];
    assert r[s] == post;
    r
  }

  /** The list the `deletePost` mutation leaves: `splice(findIndex(...), 1)`.
      One post goes unless the list was empty, and nothing else is added. */
  function RemoveFirst(ps: seq<Post>, id: string): (r: seq<Post>)
    ensures |r| == if ps == [] then 0 else |ps| - 1
    ensures multiset(r) <= multiset(ps)
  {
    var i := FindIndex(ps, id);
    var s := SpliceStart(|ps|, i);
    assert ps != [] ==> s < |ps|;
    var d := SpliceDeleteCount(|ps|, s, 1);
    var r := Splice(ps, i, 1, []);
    assert r == ps[..s] + ps[s + d..];
    assert ps == ps[..s] + ps[s..s + d] + ps[s + d..];
    r
  }

  /** With the identifier present, `updatePost` replaces exactly the first
      post carrying it and keeps the length and every other entry. */
  lemma ReplaceFirstPresent(ps: seq<Post>, post: Post, i: int)
    requires IsFirstWithId(ps, post.id, i)
    ensures ReplaceFirst(ps, post) == ps[..i] + [post] + ps[i + 1..]
    ensures |ReplaceFirst(ps, post)| == |ps|
    ensures forall j :: 0 <= j < |ps| && j != i ==> ReplaceFirst(ps, post)[j] == ps[j]
  {
    FirstWithIdUnique(ps, post.id, i, FindIndex(ps, post.id));
  }

  /** With the identifier absent, the index -1 makes `splice` replace the
      last post, and on an empty list it inserts the post. */
  lemma ReplaceFirstAbsent(ps: seq<Post>, post: Post)
    requires !HasId(ps, post.id)
    ensures ps != [] ==> ReplaceFirst(ps, post) == ps[..|ps| - 1] + [post]
    ensures ps == [] ==> ReplaceFirst(ps, post) == [post]
  {
  }

  /** With the identifier present, `deletePost` removes exactly the first post
      carrying it and keeps the order of the rest. */
  lemma RemoveFirstPresent(ps: seq<Post>, id: string, i: int)
    requires IsFirstWithId(ps, id, i)
    ensures RemoveFirst(ps, id) == ps[..i] + ps[i + 1..]
    ensures |RemoveFirst(ps, id)| == |ps| - 1
  {
    FirstWithIdUnique(ps, id, i, FindIndex(ps, id));
  }

  /** With the identifier absent, the index -1 makes `splice` remove the last
      post, and an empty list stays empty. */
  lemma RemoveFirstAbsent(ps: seq<Post>, id: string)
    requires !HasId(ps, id)
    ensures ps != [] ==> RemoveFirst(ps, id) == ps[..|ps| - 1]
    ensures ps == [] ==> RemoveFirst(ps, id) == []
  {
  }

  /** Removing a post that is in the list leaves that particular entry out:
      the post at the first matching position is gone and, when no later
      post repeats the identifier, no post with it is left. */
  lemma RemoveFirstDropsId(ps: seq<Post>, id: string)
    requires HasId(ps, id)
    requires forall j, k :: 0 <= j < k < |ps| ==> ps[j].id != ps[k].id
    ensures !HasId(RemoveFirst(ps, id), id)
  {
    var i := FindIndex(ps, id);
    RemoveFirstPresent(ps, id, i);
    var r := RemoveFirst(ps, id);
    forall j | 0 <= j < |r| ensures r[j].id != id {
      if j < i { assert r[j] == ps[j]; } else { assert r[j] == ps[j + 1]; }
    }
  }
}
