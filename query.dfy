/**
  What the controllers share about reading a collection: the `parseInt(x) || d` defaulting of
  query parameters, the `skip`/`limit` window MongoDB applies to a result, and the natural
  (insertion, here ascending id) order in which `find` returns the documents of a table.
 */
module Query {
  import opened Wrappers
  import opened JsNumber
  import opened Errors

  /** Identifiers of stored documents: handed out in increasing order as documents are inserted. */
  type Id = nat

  function Abs(x: int): nat { if x < 0 then -x else x }

  function Min(a: int, b: int): int { if a <= b then a else b }

  function Max(a: int, b: int): int { if a <= b then b else a }

  /** True when `parseInt` of the query value is NaN or zero, the two falsy results of `parseInt`. */
  predicate Unset(q: Option<string>) {
    q.None? || ParseInt(q.value).None? || ParseInt(q.value) == Some(0)
  }

  /** `parseInt(q) || default`; an absent parameter is `undefined`, whose `parseInt` is NaN. */
  function IntOrDefault(q: Option<string>, default: int): (r: int)
    ensures Unset(q) ==> r == default
    ensures !Unset(q) ==> Some(r) == ParseInt(q.value) && r != 0
  {
    match q
    case None => default
    case Some(s) =>
      match ParseInt(s)
      case None => default
      case Some(n) => if n == 0 then default else n
  }

  /** A parameter written as a decimal number is read as that number; "0" falls back to the default. */
  lemma IntOrDefaultDecimal(n: int, default: int)
    ensures IntOrDefault(Some(Decimal(n)), default) == if n == 0 then default else n
  {
    DecimalRoundTrip(n);
  }

  /**
    `find(...).skip(skip).limit(limit)`: MongoDB refuses a negative skip; a negative limit
    is read as its absolute value and a zero limit as no limit.
   */
  function Window<T>(s: seq<T>, skip: int, limit: int): (r: Result<seq<T>, Error>)
    ensures r.Ok? <==> skip >= 0
    ensures r.Err? ==> r.error == QueryRejected
    ensures r.Ok? ==> |r.value| == if limit == 0 then Max(0, |s| - skip) else Min(Abs(limit), Max(0, |s| - skip))
    ensures r.Ok? ==> forall i :: 0 <= i < |r.value| ==> r.value[i] == s[skip + i]
  {
    if skip < 0 then Err(QueryRejected)
    else
      var from := Min(skip, |s|);
      var to := if limit == 0 then |s| else Min(from + Abs(limit), |s|);
      Ok(s[from..to])
  }

  /**
    The pagination of the listing endpoints: `page` defaults to 1 and `limit` to 10, the window
    starts at `(page - 1) * limit` and holds at most `limit` documents.
   */
  function PageWindow<T>(s: seq<T>, pageQ: Option<string>, limitQ: Option<string>): (r: Result<seq<T>, Error>)
    ensures var skip, limit := SkipOf(pageQ, limitQ), IntOrDefault(limitQ, 10);
      && limit != 0
      && (r.Ok? <==> skip >= 0)
      && (r.Ok? ==> |r.value| <= Abs(limit))
      && (r.Ok? ==> IsWindow(r.value, s, skip, limit))
  {
    var skip, limit := SkipOf(pageQ, limitQ), IntOrDefault(limitQ, 10);
    var r := Window(s, skip, limit);
    assert r.Ok? ==> IsWindow(r.value, s, skip, limit) by {
      if r.Ok? { WindowIsWindow(s, skip, limit); }
    }
    r
  }

  /** A window with a non-zero limit is the window `IsWindow` describes. */
  lemma WindowIsWindow<T>(s: seq<T>, skip: int, limit: int)
    requires limit != 0 && Window(s, skip, limit).Ok?
    ensures IsWindow(Window(s, skip, limit).value, s, skip, limit)
  {
  }

  /**
    `page` is the window of `s` from position `skip` on with at most `|limit|` documents: as
    many as `s` has left after `skip`, up to `|limit|`, and each the document at its position.
   */
  predicate IsWindow<T(==)>(page: seq<T>, s: seq<T>, skip: int, limit: int) {
    && |page| == Min(Abs(limit), Max(0, |s| - skip))
    && forall i :: 0 <= i < |page| ==> 0 <= skip + i < |s| && page[i] == s[skip + i]
  }

  /** `skip = (page - 1) * limit`; without a usable `page` the window starts at the first document. */
  function SkipOf(pageQ: Option<string>, limitQ: Option<string>): (r: int)
    ensures Unset(pageQ) ==> r == 0
  {
    (IntOrDefault(pageQ, 1) - 1) * IntOrDefault(limitQ, 10)
  }

  /**
    When the window is refused: the skip is negative exactly when the page is below 1 with a
    positive limit, or above 1 with a negative one.
   */
  lemma SkipSign(pageQ: Option<string>, limitQ: Option<string>)
    ensures var p, l := IntOrDefault(pageQ, 1), IntOrDefault(limitQ, 10);
      SkipOf(pageQ, limitQ) < 0 <==> (p < 1 && l > 0) || (p > 1 && l < 0)
  {
    var p, l := IntOrDefault(pageQ, 1), IntOrDefault(limitQ, 10);
    ProductSign(p - 1, l);
  }

  lemma ProductSign(a: int, b: int)
    requires b != 0
    ensures a * b < 0 <==> (a < 0 && b > 0) || (a > 0 && b < 0)
  {
    if a == 0 {
    } else if a > 0 && b > 0 {
      Positive(a, b);
    } else if a < 0 && b < 0 {
      Positive(-a, -b);
      assert a * b == (-a) * (-b);
    } else if a > 0 {
      Positive(a, -b);
      assert a * b == -(a * (-b));
    } else {
      Positive(-a, b);
      assert a * b == -((-a) * b);
    }
  }

  lemma Positive(x: int, y: int)
    requires x > 0 && y > 0
    ensures x * y > 0
  {
  }

  /** With no usable `page` and `limit`, a listing is the first ten documents. */
  lemma DefaultPage<T>(s: seq<T>, pageQ: Option<string>, limitQ: Option<string>)
    requires Unset(pageQ) && Unset(limitQ)
    ensures PageWindow(s, pageQ, limitQ) == Ok(s[..Min(10, |s|)])
  {
    var r := PageWindow(s, pageQ, limitQ);
    assert r.value == s[..Min(10, |s|)];
  }

  /**
    Page `p` of size `l` (both positive, as parsed from the query) is the `p`-th block of `l`
    consecutive documents, those from `k = (p - 1) * l` on; `IntOrDefaultDecimal` says when the query parses to them.
   */
  lemma PagesTile<T>(s: seq<T>, pageQ: Option<string>, limitQ: Option<string>, p: nat, l: nat, k: nat)
    requires p >= 1 && l >= 1 && k == (p - 1) * l
    requires IntOrDefault(pageQ, 1) == p && IntOrDefault(limitQ, 10) == l
    ensures PageWindow(s, pageQ, limitQ) == Ok(s[Min(k, |s|)..Min(k + l, |s|)])
  {
    SkipOfParsed(pageQ, limitQ, p, l);
    assert PageWindow(s, pageQ, limitQ) == Window(s, k, l);
    WindowSlice(s, k, l);
  }

  /** A window with a positive limit is the slice between its two ends. */
  lemma WindowSlice<T>(s: seq<T>, skip: nat, limit: nat)
    requires limit >= 1
    ensures Window(s, skip, limit) == Ok(s[Min(skip, |s|)..Min(skip + limit, |s|)])
  {
  }

  lemma SkipOfParsed(pageQ: Option<string>, limitQ: Option<string>, p: nat, l: nat)
    requires IntOrDefault(pageQ, 1) == p && IntOrDefault(limitQ, 10) == l
    ensures SkipOf(pageQ, limitQ) == (p - 1) * l
  {
    assert SkipOf(pageQ, limitQ) == (IntOrDefault(pageQ, 1) - 1) * IntOrDefault(limitQ, 10);
  }

  /** The documents of table `m` whose ids are below `n`, in ascending id order. */
  function InIdOrder<T>(m: map<Id, T>, n: nat): (r: seq<(Id, T)>)
    ensures forall i :: 0 <= i < |r| ==> r[i].0 < n && r[i].0 in m && r[i].1 == m[r[i].0]
    ensures forall i, j :: 0 <= i < j < |r| ==> r[i].0 < r[j].0
    ensures forall id :: id in m && id < n ==> (id, m[id]) in r
  {
    if n == 0 then []
    else InIdOrder(m, n - 1) + (if n - 1 in m then [(n - 1, m[n - 1])] else [])
  }

  /**
    A query parameter used as a `find` filter only when it is truthy: `x ? { field: x } : {}`
    filters nothing for an absent or empty parameter.
   */
  function Truthy(q: Option<string>): (r: Option<string>)
    ensures r.Some? <==> q.Some? && q.value != ""
    ensures r.Some? ==> r.value == q.value
  {
    if q.Some? && q.value != "" then q else None
  }

  /** The documents of `s` that a `find` filter keeps, in their order. */
  function Matching<T>(s: seq<T>, keep: T -> bool): (r: seq<T>)
    ensures |r| <= |s|
    ensures forall i :: 0 <= i < |r| ==> r[i] in s && keep(r[i])
    ensures forall i :: 0 <= i < |s| && keep(s[i]) ==> s[i] in r
  {
    if s == [] then []
    else
      var rest := Matching(s[1..], keep);
      if keep(s[0]) then [s[0]] + rest else rest
  }

  /**
    A filter keeps each document the collection holds, as often as it holds it, exactly when
    the filter accepts it: the result's multiset is the accepted part of the collection's.
   */
  lemma {:induction false} MatchingCount<T>(s: seq<T>, keep: T -> bool, x: T)
    ensures multiset(Matching(s, keep))[x] == if keep(x) then multiset(s)[x] else 0
  {
    if s != [] {
      MatchingCount(s[1..], keep, x);
      assert s == [s[0]] + s[1..];
    }
  }

  /** A filter that keeps every document returns the whole collection, in its order. */
  lemma {:induction false} MatchingAll<T>(s: seq<T>, keep: T -> bool)
    requires forall i :: 0 <= i < |s| ==> keep(s[i])
    ensures Matching(s, keep) == s
  {
    if s != [] {
      assert forall i :: 0 <= i < |s[1..]| ==> s[1..][i] == s[i + 1];
      MatchingAll(s[1..], keep);
    }
  }

  /** Documents listed by strictly ascending id, as a collection's natural order lists them. */
  predicate IdsAscending<T>(s: seq<(Id, T)>) {
    forall i, j :: 0 <= i < j < |s| ==> s[i].0 < s[j].0
  }

  lemma TailAscending<T>(s: seq<(Id, T)>)
    requires s != [] && IdsAscending(s)
    ensures IdsAscending(s[1..])
    ensures forall x :: x in s[1..] ==> s[0].0 < x.0
  {
    forall i, j | 0 <= i < j < |s[1..]| ensures s[1..][i].0 < s[1..][j].0 {
      assert s[1..][i] == s[i + 1] && s[1..][j] == s[j + 1];
    }
    forall x | x in s[1..] ensures s[0].0 < x.0 {
      var j :| 0 <= j < |s[1..]| && s[1..][j] == x;
      assert s[j + 1] == x;
    }
  }

  lemma ConsAscending<T>(x: (Id, T), rest: seq<(Id, T)>)
    requires IdsAscending(rest)
    requires forall y :: y in rest ==> x.0 < y.0
    ensures IdsAscending([x] + rest)
  {
    var r := [x] + rest;
    forall i, j | 0 <= i < j < |r| ensures r[i].0 < r[j].0 {
      assert r[j] == rest[j - 1];
      if i > 0 { assert r[i] == rest[i - 1]; } else { assert rest[j - 1] in rest; }
    }
  }

  /** Filtering keeps the natural order. */
  lemma {:induction false} MatchingAscending<T>(s: seq<(Id, T)>, keep: ((Id, T)) -> bool)
    requires IdsAscending(s)
    ensures IdsAscending(Matching(s, keep))
  {
    if s != [] {
      TailAscending(s);
      MatchingAscending(s[1..], keep);
      if keep(s[0]) {
        ConsAscending(s[0], Matching(s[1..], keep));
      }
    }
  }

  /** A window of a listing in natural order is in natural order. */
  lemma WindowAscending<T>(s: seq<(Id, T)>, skip: int, limit: int)
    requires IdsAscending(s) && Window(s, skip, limit).Ok?
    ensures IdsAscending(Window(s, skip, limit).value)
  {
    var w := Window(s, skip, limit).value;
    forall i, j | 0 <= i < j < |w| ensures w[i].0 < w[j].0 {
      assert w[i] == s[skip + i] && w[j] == s[skip + j];
    }
  }
}
