/** Shared vocabulary: optional values, results, the settings constants the
    backend reads from its configuration, and a few facts about sequences. */
module Common {

  datatype Option<+T> = None | Some(value: T)

  datatype Result<+T, +E> = Ok(value: T) | Err(error: E)

  /** An exception nothing catches: the request ends with status 500. */
  datatype ServerError = ServerError

  function Min(a: int, b: int): int {
    if a < b then a else b
  }

  /** The numeric settings the models and serializers import. Their values
      live in the deployment's configuration, so they stay parameters here;
      the only thing assumed of them is that every range is non-empty. */
  datatype Settings = Settings(
    recipeMinVol: int,      // RECIPE_MIN_VOL_VALIDATOR
    recipeMaxVol: int,      // RECIPE_MAX_VOL_VALIDATOR
    recipeIngMinVol: int,   // RECIPE_ING_MIN_VOL_VALIDATOR
    recipeIngMaxVol: int,   // RECIPE_ING_MAX_VOL_VALIDATOR
    tagColorMaxLength: nat, // TAG_COLOR_MAX_LENGTH
    tagSlugMaxLength: nat,  // TAG_SLUG_MAX_LENGTH
    usernameMaxLength: nat  // USER_USERNAME_MAX_LENGTH
  ) {
    predicate WellFormed() {
      recipeMinVol <= recipeMaxVol && recipeIngMinVol <= recipeIngMaxVol
    }
  }

  /** No value occurs twice. */
  predicate Distinct<T(==)>(s: seq<T>) {
    forall i, j :: 0 <= i < j < |s| ==> s[i] != s[j]
  }

  /** Putting a new value in front of a duplicate-free sequence keeps it
      duplicate-free. */
  lemma DistinctCons<T>(x: T, t: seq<T>)
    requires Distinct(t) && x !in t
    ensures Distinct([x] + t)
  {
    var s := [x] + t;
    forall i, j | 0 <= i < j < |s| ensures s[i] != s[j] {
      assert s[j] == t[j - 1];
      if i > 0 { assert s[i] == t[i - 1]; }
    }
  }

  /** The cardinality test Python's `len(xs) > len(set(xs))` performs is
      exactly "some value occurs twice". */
  lemma {:induction false} DistinctIffSetSize<T>(s: seq<T>)
    ensures |set x | x in s| <= |s|
    ensures Distinct(s) <==> |set x | x in s| == |s|
  {
    if s == [] {
      assert (set x | x in s) == {};
    } else {
      var rest := s[1..];
      DistinctIffSetSize(rest);
      var tail := set x | x in rest;
      assert (set x | x in s) == {s[0]} + tail by {
        forall x | x in s ensures x == s[0] || x in rest {
          var k :| 0 <= k < |s| && s[k] == x;
          if k > 0 { assert rest[k - 1] == x; }
        }
      }
      if s[0] in rest {
        var k :| 0 <= k < |rest| && rest[k] == s[0];
        assert s[0] == s[k + 1];
        assert !Distinct(s);
        assert {s[0]} + tail == tail;
      } else {
        assert s[0] !in tail;
        assert |{s[0]} + tail| == 1 + |tail|;
        if Distinct(rest) {
          DistinctCons(s[0], rest);
          assert s == [s[0]] + rest;
        } else {
          var i, j :| 0 <= i < j < |rest| && rest[i] == rest[j];
          assert s[i + 1] == s[j + 1];
        }
      }
    }
  }

  /** The elements of `s` that satisfy `p`, in their original order. */
  function Filter<T>(s: seq<T>, p: T -> bool): (r: seq<T>)
    ensures |r| <= |s|
    ensures forall i :: 0 <= i < |r| ==> r[i] in s && p(r[i])
    ensures forall i :: 0 <= i < |s| && p(s[i]) ==> s[i] in r
  {
    if s == [] then []
    else if p(s[0]) then [s[0]] + Filter(s[1..], p)
    else Filter(s[1..], p)
  }

  /** `sub` can be obtained from `s` by deleting elements: filtering keeps
      the original relative order. */
  predicate IsSubsequence<T(==)>(sub: seq<T>, s: seq<T>)
    decreases |s|
  {
    if sub == [] then true
    else if s == [] then false
    else if sub[0] == s[0] then IsSubsequence(sub[1..], s[1..])
    else IsSubsequence(sub, s[1..])
  }

  lemma {:induction false} FilterIsSubsequence<T>(s: seq<T>, p: T -> bool)
    ensures IsSubsequence(Filter(s, p), s)
  {
    if s != [] {
      FilterIsSubsequence(s[1..], p);
      var r := Filter(s, p);
      if p(s[0]) {
        assert r[1..] == Filter(s[1..], p);
      } else if r != [] {
        // the head of r satisfies p, so it is not s[0]
        assert r[0] != s[0];
      }
    }
  }

  /** A filtered duplicate-free sequence is duplicate-free. */
  lemma {:induction false} FilterKeepsDistinct<T>(s: seq<T>, p: T -> bool)
    requires Distinct(s)
    ensures Distinct(Filter(s, p))
  {
    if s != [] {
      var rest := s[1..];
      assert Distinct(rest);
      FilterKeepsDistinct(rest, p);
      if p(s[0]) {
        assert s[0] !in rest;
        DistinctCons(s[0], Filter(rest, p));
      }
    }
  }

  /** Appending a new value to a duplicate-free sequence keeps it
      duplicate-free. */
  lemma DistinctSnoc<T>(t: seq<T>, x: T)
    requires Distinct(t) && x !in t
    ensures Distinct(t + [x])
  {
    var s := t + [x];
    forall i, j | 0 <= i < j < |s| ensures s[i] != s[j] {
      assert s[i] == t[i];
      if j < |t| { assert s[j] == t[j]; }
    }
  }

  /** Filtering distributes over concatenation. */
  lemma {:induction false} FilterAppend<T>(a: seq<T>, b: seq<T>, p: T -> bool)
    ensures Filter(a + b, p) == Filter(a, p) + Filter(b, p)
  {
    if a != [] {
      FilterAppend(a[1..], b, p);
      assert (a + b)[1..] == a[1..] + b;
    } else {
      assert a + b == b;
    }
  }

  /** Filtering keeps everything when every element passes. */
  lemma {:induction false} FilterAll<T>(s: seq<T>, p: T -> bool)
    requires forall i :: 0 <= i < |s| ==> p(s[i])
    ensures Filter(s, p) == s
  {
    if s != [] {
      FilterAll(s[1..], p);
    }
  }

  /** Filtering twice is filtering once by both tests. */
  lemma {:induction false} FilterFilter<T>(s: seq<T>, p: T -> bool, q: T -> bool)
    ensures Filter(Filter(s, p), q) == Filter(s, x => p(x) && q(x))
  {
    if s != [] {
      FilterFilter(s[1..], p, q);
    }
  }

  /** `s` with every occurrence of `x` removed: what deleting the rows a
      lookup matches leaves in a table. */
  function Without<T(==)>(s: seq<T>, x: T): (r: seq<T>)
    ensures x !in r
    ensures forall i :: 0 <= i < |s| && s[i] != x ==> s[i] in r
    ensures forall i :: 0 <= i < |r| ==> r[i] in s
  {
    Filter(s, y => y != x)
  }

  /** Removing every copy of a value keeps a duplicate-free sequence
      duplicate-free. */
  lemma WithoutKeepsDistinct<T>(s: seq<T>, x: T)
    requires Distinct(s)
    ensures Distinct(Without(s, x))
  {
    FilterKeepsDistinct(s, y => y != x);
  }

  /** Removing a value that was just appended gives the sequence back. */
  lemma WithoutAppended<T>(s: seq<T>, x: T)
    requires x !in s
    ensures Without(s + [x], x) == s
  {
    FilterAppend(s, [x], y => y != x);
    FilterAll(s, y => y != x);
  }

  /** In a duplicate-free sequence, removing a present value removes exactly
      one element. */
  lemma {:induction false} WithoutOneFewer<T>(s: seq<T>, x: T)
    requires Distinct(s) && x in s
    ensures |Without(s, x)| == |s| - 1
  {
    if s[0] == x {
      assert x !in s[1..];
      FilterAll(s[1..], y => y != x);
    } else {
      assert Distinct(s[1..]);
      WithoutOneFewer(s[1..], x);
    }
  }
}
