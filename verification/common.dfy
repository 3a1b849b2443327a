/** Shared vocabulary of the services: identifiers, the `{ user: id }` entry
    that every relationship array holds, sub-documents that carry their own
    id, and the success-or-error value every operation returns. */
module Common {

  type UserId = string

  /** A `{ user: id }` entry, as stored in likes, shares, followers,
      followings, friends, friend requests and group join requests.
      The `date` default that each entry also carries is not modelled. */
  datatype Ref = Ref(user: UserId)

  /** A sub-document with its own `_id`: an experience, an education or a comment. */
  datatype Entry<D> = Entry(id: string, body: D)

  datatype Option<+T> = None | Some(value: T)

  /** The outcome of a service call: the new state, or the reason the call threw. */
  datatype Result<+T, +E> = Ok(value: T) | Err(error: E)

  /** `list.filter(({ user }) => user !== u)`: every entry of `u` removed. */
  function Without(s: seq<Ref>, u: UserId): (r: seq<Ref>)
    ensures Ref(u) !in r
    ensures forall x :: x in r <==> x in s && x != Ref(u)
    ensures |r| == |s| - multiset(s)[Ref(u)]
  {
    if |s| == 0 then []
    else
      assert s == [s[0]] + s[1..];
      if s[0].user == u then Without(s[1..], u) else [s[0]] + Without(s[1..], u)
  }

  /** Filtering distributes over concatenation, so the kept entries stay in order. */
  lemma {:induction false} WithoutAppend(a: seq<Ref>, b: seq<Ref>, u: UserId)
    ensures Without(a + b, u) == Without(a, u) + Without(b, u)
  {
    if |a| == 0 {
      assert a + b == b;
    } else {
      assert (a + b)[1..] == a[1..] + b;
      WithoutAppend(a[1..], b, u);
    }
  }

  /** Filtering out a user who has no entry changes nothing. */
  lemma {:induction false} WithoutAbsent(s: seq<Ref>, u: UserId)
    requires Ref(u) !in s
    ensures Without(s, u) == s
  {
    if |s| > 0 {
      assert Ref(u) !in s[1..];
      WithoutAbsent(s[1..], u);
    }
  }

  /** Prepending an entry and filtering its user out again gives back the list. */
  lemma WithoutUndoesPrepend(s: seq<Ref>, u: UserId)
    requires Ref(u) !in s
    ensures Without([Ref(u)] + s, u) == s
  {
    WithoutAbsent(s, u);
  }

  /** Some entry carries the given id (`list.some(e => e._id === id)`). */
  predicate HasId<D>(s: seq<Entry<D>>, id: string) {
    exists i :: 0 <= i < |s| && s[i].id == id
  }

  /** The position `list.find(e => e._id === id)` stops at: the first entry
      with the given id, or `|s|` when there is none. */
  function IndexOfId<D>(s: seq<Entry<D>>, id: string): (i: nat)
    ensures i <= |s|
    ensures i < |s| ==> s[i].id == id
    ensures forall j :: 0 <= j < i ==> s[j].id != id
    ensures i == |s| <==> !HasId(s, id)
  {
    if |s| == 0 then 0
    else if s[0].id == id then 0
    else 1 + IndexOfId(s[1..], id)
  }

  /** `list.filter(e => e._id !== id)`: every entry with the given id removed. */
  function WithoutId<D(==)>(s: seq<Entry<D>>, id: string): (r: seq<Entry<D>>)
    ensures !HasId(r, id)
    ensures forall i :: 0 <= i < |r| ==> r[i] in s && r[i].id != id
    ensures forall i :: 0 <= i < |s| && s[i].id != id ==> s[i] in r
  {
    if |s| == 0 then []
    else
      assert s == [s[0]] + s[1..];
      if s[0].id == id then WithoutId(s[1..], id) else [s[0]] + WithoutId(s[1..], id)
  }

  /** Removing an id that no entry carries changes nothing. */
  lemma {:induction false} WithoutIdAbsent<D>(s: seq<Entry<D>>, id: string)
    requires !HasId(s, id)
    ensures WithoutId(s, id) == s
  {
    if |s| > 0 {
      assert !HasId(s[1..], id);
      WithoutIdAbsent(s[1..], id);
    }
  }

  /** Removing by id distributes over concatenation, so the kept entries stay in order. */
  lemma {:induction false} WithoutIdAppend<D>(a: seq<Entry<D>>, b: seq<Entry<D>>, id: string)
    ensures WithoutId(a + b, id) == WithoutId(a, id) + WithoutId(b, id)
  {
    if |a| == 0 {
      assert a + b == b;
    } else {
      assert (a + b)[1..] == a[1..] + b;
      WithoutIdAppend(a[1..], b, id);
    }
  }
}
