/** A request's query string as Django's QueryDict presents it, and the
    values django-filter's CharFilter and BooleanFilter derive from it. */
module QueryParams {
  import opened Common
  import opened PyText

  /** The (key, value) pairs of a query string, in order; a key may repeat. */
  type Params = seq<(string, string)>

  /** `key in query_params`. */
  predicate Has(params: Params, key: string) {
    exists i :: 0 <= i < |params| && params[i].0 == key
  }

  /** `query_params.getlist(key)`: every value given for `key`, in order. */
  function GetList(params: Params, key: string): (r: seq<string>)
    ensures |r| <= |params|
  {
    if params == [] then []
    else
      var last := params[|params| - 1];
      GetList(params[..|params| - 1], key) + (if last.0 == key then [last.1] else [])
  }

  /** The test a pair passes when it gives a value for `key`. */
  function KeyIs(key: string): ((string, string)) -> bool {
    (p: (string, string)) => p.0 == key
  }

  /** The values of a run of pairs, in order. */
  function Values(pairs: Params): (r: seq<string>)
    ensures |r| == |pairs| && forall i :: 0 <= i < |pairs| ==> r[i] == pairs[i].1
  {
    seq(|pairs|, i requires 0 <= i < |pairs| => pairs[i].1)
  }

  /** `getlist` keeps the order of the query string: it is the values of
      the pairs for `key`, selected from front to back. */
  lemma {:induction false} GetListIsFilter(params: Params, key: string)
    ensures GetList(params, key) == Values(Filter(params, KeyIs(key)))
  {
    if params != [] {
      var init := params[..|params| - 1];
      var last := params[|params| - 1];
      GetListIsFilter(init, key);
      assert params == init + [last];
      FilterAppend(init, [last], KeyIs(key));
      var kept := Filter(init, KeyIs(key));
      var tail := Filter([last], KeyIs(key));
      assert tail == if last.0 == key then [last] else [];
      assert Values(kept + tail) == Values(kept) + Values(tail);
    }
  }

  /** `getlist` holds exactly the values given for `key`. */
  lemma {:induction false} GetListContents(params: Params, key: string)
    ensures forall v :: v in GetList(params, key) <==> exists i :: 0 <= i < |params| && params[i] == (key, v)
  {
    if params != [] {
      var init := params[..|params| - 1];
      var last := params[|params| - 1];
      GetListContents(init, key);
      forall v ensures v in GetList(params, key) <==> exists i :: 0 <= i < |params| && params[i] == (key, v) {
        if exists i :: 0 <= i < |params| && params[i] == (key, v) {
          var i :| 0 <= i < |params| && params[i] == (key, v);
          if i < |params| - 1 {
            assert init[i] == (key, v);
          }
        }
        if v in GetList(init, key) {
          var i :| 0 <= i < |init| && init[i] == (key, v);
          assert params[i] == (key, v);
        }
        if last == (key, v) {
          assert params[|params| - 1] == (key, v);
        }
      }
    }
  }

  /** `query_params.get(key)`: the last value given for `key`. */
  function Get(params: Params, key: string): Option<string> {
    if params == [] then None
    else if params[|params| - 1].0 == key then Some(params[|params| - 1].1)
    else Get(params[..|params| - 1], key)
  }

  /** `get` answers with the last element of `getlist`, and with nothing
      exactly when the key is absent. */
  lemma {:induction false} GetIsLastOfList(params: Params, key: string)
    ensures Get(params, key).None? <==> GetList(params, key) == []
    ensures Get(params, key).None? <==> !Has(params, key)
    ensures Get(params, key).Some? ==>
              Get(params, key).value == GetList(params, key)[|GetList(params, key)| - 1]
  {
    if params != [] {
      var init := params[..|params| - 1];
      GetIsLastOfList(init, key);
      if params[|params| - 1].0 != key {
        assert Has(params, key) ==> Has(init, key) by {
          if Has(params, key) {
            var i :| 0 <= i < |params| && params[i].0 == key;
            assert init[i].0 == key;
          }
        }
        assert Has(init, key) ==> Has(params, key) by {
          if Has(init, key) {
            var i :| 0 <= i < |init| && init[i].0 == key;
            assert params[i].0 == key;
          }
        }
      }
    }
  }

  /** The value a CharFilter receives: the last value for `key` with the
      surrounding whitespace stripped, as a form CharField cleans it. None
      when the key is absent or the value is blank; django-filter then
      skips the filter. */
  function CharFilterValue(params: Params, key: string): (r: Option<string>)
    ensures r.Some? ==> r.value != [] && Get(params, key).Some?
  {
    match Get(params, key)
    case None => None
    case Some(v) => var t := Strip(v); if t == [] then None else Some(t)
  }

  /** ASCII lower-casing. No other character lower-cases to a letter of
      "true" or "false", so this decides the comparison below exactly as
      Python's `str.lower` does. */
  function AsciiLower(s: string): (r: string)
    ensures |r| == |s|
  {
    if s == [] then []
    else
      var c := s[0];
      [if 'A' <= c <= 'Z' then (c as int + 32) as char else c] + AsciiLower(s[1..])
  }

  /** The value a BooleanFilter receives from django-filter's BooleanWidget:
      "1" and "true" in any case mean true, "0" and "false" mean false, and
      anything else, or an absent key, means no value, so the filter is
      skipped. */
  function BooleanFilterValue(params: Params, key: string): (r: Option<bool>)
    ensures r.Some? ==> Get(params, key).Some?
  {
    match Get(params, key)
    case None => None
    case Some(v) =>
      var w := AsciiLower(v);
      if w == "1" || w == "true" then Some(true)
      else if w == "0" || w == "false" then Some(false)
      else None
  }
  /** What BooleanWidget makes of a few spellings: case does not matter,
      and a word it does not know leaves the filter out. */
  lemma BooleanFilterReadsWords(key: string)
    ensures BooleanFilterValue([(key, "True")], key) == Some(true)
    ensures BooleanFilterValue([(key, "1")], key) == Some(true)
    ensures BooleanFilterValue([(key, "FALSE")], key) == Some(false)
    ensures BooleanFilterValue([(key, "0")], key) == Some(false)
    ensures BooleanFilterValue([(key, "yes")], key) == None
    ensures BooleanFilterValue([], key) == None
  {
    assert AsciiLower("True") == "true";
    assert AsciiLower("FALSE") == "false";
    assert AsciiLower("yes") == "yes";
  }
}
