/** Deleting from a record list by id, as the store's delete operations do
    it: the list is rebuilt keeping every record whose id differs. Ids come
    from the millisecond clock, so nothing here assumes they are unique. */
module RecordLists {
  import opened Records

  /** The records of `s` whose id differs from `id`, in their original order. */
  function Without<T(==)>(s: seq<Stamped<T>>, id: int): (r: seq<Stamped<T>>)
    ensures |r| <= |s|
    ensures forall k :: 0 <= k < |r| ==> r[k].id != id
    ensures forall k :: 0 <= k < |r| ==> r[k] in s
    ensures forall k :: 0 <= k < |s| && s[k].id != id ==> s[k] in r
  {
    if s == [] then []
    else
      assert s == [s[0]] + s[1..];
      if s[0].id == id then Without(s[1..], id)
      else [s[0]] + Without(s[1..], id)
  }

  /** How many records of `s` carry `id`. */
  function CountId<T>(s: seq<Stamped<T>>, id: int): nat {
    if s == [] then 0
    else (if s[0].id == id then 1 else 0) + CountId(s[1..], id)
  }

  /** `r` is `s` with some elements left out and the rest kept in order. */
  predicate SubsequenceOf<T(==)>(r: seq<T>, s: seq<T>) {
    if r == [] then true
    else if s == [] then false
    else if r[0] == s[0] then SubsequenceOf(r[1..], s[1..])
    else SubsequenceOf(r, s[1..])
  }

  /** Delete shortens the list by exactly the number of records that matched. */
  lemma {:induction false} WithoutLength<T>(s: seq<Stamped<T>>, id: int)
    ensures |Without(s, id)| == |s| - CountId(s, id)
  {
    if s != [] {
      WithoutLength(s[1..], id);
    }
  }

  /** Delete leaves the list as it was exactly when no record carries the id:
      deleting an absent id is a silent no-op, and a present one always goes. */
  lemma {:induction false} WithoutUnchangedIff<T>(s: seq<Stamped<T>>, id: int)
    ensures Without(s, id) == s <==> forall k :: 0 <= k < |s| ==> s[k].id != id
  {
    if s != [] && forall k :: 0 <= k < |s| ==> s[k].id != id {
      assert forall k :: 0 <= k < |s[1..]| ==> s[1..][k].id != id by {
        forall k | 0 <= k < |s[1..]| ensures s[1..][k].id != id {
          assert s[1..][k] == s[k + 1];
        }
      }
      WithoutUnchangedIff(s[1..], id);
      assert s == [s[0]] + s[1..];
    }
  }

  /** Deleting the same id twice leaves the same list as deleting it once. */
  lemma {:induction false} WithoutIdempotent<T>(s: seq<Stamped<T>>, id: int)
    ensures Without(Without(s, id), id) == Without(s, id)
  {
    WithoutUnchangedIff(Without(s, id), id);
  }

  /** Delete works piecewise on a concatenation, so it never reorders records. */
  lemma {:induction false} WithoutConcat<T>(a: seq<Stamped<T>>, b: seq<Stamped<T>>, id: int)
    ensures Without(a + b, id) == Without(a, id) + Without(b, id)
  {
    if a == [] {
      assert a + b == b;
    } else {
      assert (a + b)[0] == a[0];
      assert (a + b)[1..] == a[1..] + b;
      WithoutConcat(a[1..], b, id);
    }
  }

  /** The records that survive a delete keep their original relative order. */
  lemma {:induction false} WithoutKeepsOrder<T>(s: seq<Stamped<T>>, id: int)
    ensures SubsequenceOf(Without(s, id), s)
  {
    if s != [] {
      WithoutKeepsOrder(s[1..], id);
      var rest := Without(s[1..], id);
      if s[0].id == id {
        if rest != [] {
          assert rest[0].id != id;
        }
      } else {
        assert ([s[0]] + rest)[1..] == rest;
      }
    }
  }

  /** Deleting a different id keeps a freshly appended record at the end. */
  lemma WithoutAppendOther<T>(s: seq<Stamped<T>>, x: Stamped<T>, id: int)
    requires x.id != id
    ensures Without(s + [x], id) == Without(s, id) + [x]
  {
    WithoutConcat(s, [x], id);
    assert Without([x], id) == [x] + Without([x][1..], id);
  }

  /** Two records added within the same millisecond share an id, and one
      delete of that id removes both of them. */
  lemma SameInstantAddsDeletedTogether<T>(s: seq<Stamped<T>>, a: T, b: T, now: int, isoA: string, isoB: string)
    ensures Without(s + [Stamped(now, isoA, a)] + [Stamped(now, isoB, b)], now) == Without(s, now)
  {
    var x, y := Stamped(now, isoA, a), Stamped(now, isoB, b);
    WithoutConcat(s + [x], [y], now);
    WithoutConcat(s, [x], now);
    assert Without([x], now) == Without([x][1..], now);
    assert Without([y], now) == Without([y][1..], now);
  }
}
