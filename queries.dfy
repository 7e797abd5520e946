/** The SQL query shapes the models issue, stated over in-memory tables:
    a table scan in rowid order, `WHERE` as a filter, `ORDER BY` as a sort on
    SQLite's value ordering, `LIMIT ? OFFSET ?`, `COUNT(*)`, and the
    arithmetic the controllers do around them (rounded percentages and
    pagination). */
module Queries {
  import opened Common

  // ------------------------------------------------------------- scanning

  /** The rowids of `m` below `n`, ascending: the order a plain table scan
      visits rows in. */
  function Ids<T>(m: map<nat, T>, n: nat): (r: seq<nat>)
    ensures forall i :: 0 <= i < |r| ==> r[i] in m && r[i] < n
    ensures forall k :: k in m && k < n ==> k in r
    ensures forall i, j :: 0 <= i < j < |r| ==> r[i] < r[j]
  {
    if n == 0 then []
    else Ids(m, n - 1) + (if n - 1 in m then [n - 1] else [])
  }

  /** The rows of `m` below `n`, in rowid order. */
  function Rows<T(==,!new)>(m: map<nat, T>, n: nat): (r: seq<T>)
    ensures forall x :: x in r <==> exists k :: k in m && k < n && m[k] == x
    ensures |r| == |Ids(m, n)| && forall i :: 0 <= i < |r| ==> r[i] == m[Ids(m, n)[i]]
  {
    var ids := Ids(m, n);
    var r := seq(|ids|, i requires 0 <= i < |ids| => m[ids[i]]);
    assert forall x :: x in r ==> exists k :: k in m && k < n && m[k] == x by {
      forall x | x in r ensures exists k :: k in m && k < n && m[k] == x {
        var i :| 0 <= i < |r| && r[i] == x;
        assert ids[i] in m && ids[i] < n && m[ids[i]] == x;
      }
    }
    assert forall k :: k in m && k < n ==> m[k] in r by {
      forall k | k in m && k < n ensures m[k] in r {
        var i :| 0 <= i < |ids| && ids[i] == k;
        assert r[i] == m[k];
      }
    }
    r
  }

  /** Every scanned row is a row of the table. */
  lemma RowsAreValues<T(!new)>(m: map<nat, T>, n: nat)
    ensures forall x :: x in Rows(m, n) ==> x in m.Values
  {
    forall x | x in Rows(m, n) ensures x in m.Values {
      var k :| k in m && k < n && m[k] == x;
    }
  }

  /** A scan visits the same rowids in two tables with the same keys. */
  lemma {:induction false} IdsSameKeys<T, U>(m1: map<nat, T>, m2: map<nat, U>, n: nat)
    requires m1.Keys == m2.Keys
    ensures Ids(m1, n) == Ids(m2, n)
  {
    if n > 0 {
      IdsSameKeys(m1, m2, n - 1);
    }
  }

  /** Rewriting every row of a table in place rewrites its scan the same
      way, row by row. */
  lemma RowsRewritten<T(!new)>(m1: map<nat, T>, m2: map<nat, T>, n: nat, f: T -> T)
    requires m1.Keys == m2.Keys
    requires forall k :: k in m2 ==> m2[k] == f(m1[k])
    ensures |Rows(m2, n)| == |Rows(m1, n)|
    ensures forall i :: 0 <= i < |Rows(m1, n)| ==> Rows(m2, n)[i] == f(Rows(m1, n)[i])
  {
    IdsSameKeys(m1, m2, n);
  }

  // ------------------------------------------------------------ filtering

  /** `WHERE p(row)`, keeping the scan order. */
  function Filter<T(==,!new)>(s: seq<T>, p: T -> bool): (r: seq<T>)
    ensures |r| <= |s|
    ensures forall x :: x in r <==> x in s && p(x)
    ensures forall x :: multiset(r)[x] == if p(x) then multiset(s)[x] else 0
  {
    if s == [] then []
    else
      assert s == [s[0]] + s[1..];
      (if p(s[0]) then [s[0]] else []) + Filter(s[1..], p)
  }

  /** `SELECT COUNT(*) ... WHERE p(row)`. */
  function Count<T(==,!new)>(s: seq<T>, p: T -> bool): nat {
    |Filter(s, p)|
  }

  /** Every row falls on exactly one side of a condition. */
  lemma {:induction false} CountSplit<T(!new)>(s: seq<T>, p: T -> bool)
    ensures Count(s, p) + Count(s, x => !p(x)) == |s|
  {
    if s != [] {
      CountSplit(s[1..], p);
    }
  }

  /** Filtering twice keeps the rows meeting both conditions. */
  lemma {:induction false} FilterFilter<T(!new)>(s: seq<T>, p: T -> bool, q: T -> bool)
    ensures Filter(Filter(s, p), q) == Filter(s, x => p(x) && q(x))
  {
    if s != [] {
      FilterFilter(s[1..], p, q);
      if p(s[0]) {
        assert Filter(s, p) == [s[0]] + Filter(s[1..], p);
        assert Filter(s, p)[1..] == Filter(s[1..], p);
      } else {
        assert Filter(s, p) == Filter(s[1..], p);
      }
    }
  }

  /** Conditions that agree on every row select the same rows. */
  lemma {:induction false} FilterExt<T(!new)>(s: seq<T>, p: T -> bool, q: T -> bool)
    requires forall x :: x in s ==> (p(x) <==> q(x))
    ensures Filter(s, p) == Filter(s, q)
  {
    if s != [] {
      FilterExt(s[1..], p, q);
    }
  }

  /** A condition that splits into two exclusive ones counts the rows of
      each once. */
  lemma {:induction false} CountDisjointUnion<T(!new)>(s: seq<T>, r: T -> bool, p: T -> bool, q: T -> bool)
    requires forall x :: x in s ==> (r(x) <==> p(x) || q(x)) && !(p(x) && q(x))
    ensures Count(s, r) == Count(s, p) + Count(s, q)
  {
    if s != [] {
      CountDisjointUnion(s[1..], r, p, q);
    }
  }

  /** A condition no row meets counts nothing. */
  lemma {:induction false} CountNone<T(!new)>(s: seq<T>, p: T -> bool)
    requires forall x :: x in s ==> !p(x)
    ensures Count(s, p) == 0
  {
    if s != [] {
      CountNone(s[1..], p);
    }
  }

  /** A condition every row meets counts every row. */
  lemma {:induction false} CountAll<T(!new)>(s: seq<T>, p: T -> bool)
    requires forall x :: x in s ==> p(x)
    ensures Count(s, p) == |s|
  {
    if s != [] {
      CountAll(s[1..], p);
    }
  }

  // --------------------------------------------------- LIMIT ? OFFSET ?

  /** `LIMIT limit OFFSET offset`: a negative offset acts as zero and a
      negative limit means no limit. */
  function Page<T>(s: seq<T>, limit: int, offset: int): (r: seq<T>)
    ensures var start := if offset < 0 then 0 else if offset > |s| then |s| else offset;
      start + |r| <= |s| && r == s[start..start + |r|]
      && (limit < 0 ==> start + |r| == |s|)
      && (limit >= 0 ==> |r| == if limit < |s| - start then limit else |s| - start)
  {
    var start := if offset < 0 then 0 else if offset > |s| then |s| else offset;
    var rest := s[start..];
    if limit < 0 || limit >= |rest| then rest else rest[..limit]
  }

  /** Consecutive pages with the same limit pick up where the previous one
      stopped. */
  lemma PagesAdjoin<T>(s: seq<T>, limit: nat, offset: nat)
    requires offset + 2 * limit <= |s|
    ensures Page(s, limit, offset) + Page(s, limit, offset + limit) == s[offset..offset + 2 * limit]
  {
  }

  // -------------------------------------------------------------- ordering

  /** A column value as SQLite compares it: NULL first, then numbers, then
      text in code-point order. */
  datatype Value = Null | Num(n: real) | Text(s: string)

  function Int(i: int): Value { Num(i as real) }

  function OptInt(i: Option<int>): Value {
    match i
    case None => Null
    case Some(v) => Num(v as real)
  }

  function OptText(s: Option<string>): Value {
    match s
    case None => Null
    case Some(v) => Text(v)
  }

  predicate StrLt(a: string, b: string) {
    if a == [] then b != []
    else if b == [] then false
    else a[0] < b[0] || (a[0] == b[0] && StrLt(a[1..], b[1..]))
  }

  lemma {:induction false} StrLtIrreflexive(a: string)
    ensures !StrLt(a, a)
  {
    if a != [] {
      StrLtIrreflexive(a[1..]);
    }
  }

  lemma {:induction false} StrLtTransitive(a: string, b: string, c: string)
    requires StrLt(a, b) && StrLt(b, c)
    ensures StrLt(a, c)
  {
    if a != [] && b != [] && c != [] && a[0] == b[0] == c[0] {
      StrLtTransitive(a[1..], b[1..], c[1..]);
    }
  }

  lemma {:induction false} StrLtTotal(a: string, b: string)
    ensures a == b || StrLt(a, b) || StrLt(b, a)
  {
    if a != [] && b != [] && a[0] == b[0] {
      StrLtTotal(a[1..], b[1..]);
      if a[1..] == b[1..] {
        assert a == [a[0]] + a[1..] && b == [b[0]] + b[1..];
      }
    }
  }

  predicate ValueLt(a: Value, b: Value) {
    match (a, b)
    case (Null, Null) => false
    case (Null, _) => true
    case (Num(_), Null) => false
    case (Num(x), Num(y)) => x < y
    case (Num(_), Text(_)) => true
    case (Text(x), Text(y)) => StrLt(x, y)
    case (Text(_), _) => false
  }

  /** `ValueLt` is a strict total order. */
  lemma ValueLtOrder(a: Value, b: Value, c: Value)
    ensures !ValueLt(a, a)
    ensures ValueLt(a, b) && ValueLt(b, c) ==> ValueLt(a, c)
    ensures a == b || ValueLt(a, b) || ValueLt(b, a)
  {
    if a.Text? {
      StrLtIrreflexive(a.s);
      if b.Text? {
        StrLtTotal(a.s, b.s);
        if c.Text? && StrLt(a.s, b.s) && StrLt(b.s, c.s) {
          StrLtTransitive(a.s, b.s, c.s);
        }
      }
    }
  }

  /** One `ORDER BY` term: a value and its direction. */
  datatype Term = Asc(v: Value) | Desc(v: Value)

  function Dir(ascending: bool, v: Value): Term {
    if ascending then Asc(v) else Desc(v)
  }

  predicate TermLt(a: Term, b: Term) {
    match (a, b)
    case (Asc(x), Asc(y)) => ValueLt(x, y)
    case (Desc(x), Desc(y)) => ValueLt(y, x)
    case (Asc(_), Desc(_)) => true
    case (Desc(_), Asc(_)) => false
  }

  lemma TermLtOrder(a: Term, b: Term, c: Term)
    ensures !TermLt(a, a)
    ensures TermLt(a, b) && TermLt(b, c) ==> TermLt(a, c)
    ensures a == b || TermLt(a, b) || TermLt(b, a)
  {
    ValueLtOrder(a.v, b.v, c.v);
    ValueLtOrder(c.v, b.v, a.v);
  }

  /** Lexicographic order on sort keys. */
  predicate KeyLe(a: seq<Term>, b: seq<Term>) {
    a == [] || (b != [] && (TermLt(a[0], b[0]) || (a[0] == b[0] && KeyLe(a[1..], b[1..]))))
  }

  lemma {:induction false} KeyLeTotal(a: seq<Term>, b: seq<Term>)
    ensures KeyLe(a, b) || KeyLe(b, a)
  {
    if a != [] && b != [] {
      TermLtOrder(a[0], b[0], a[0]);
      if a[0] == b[0] {
        KeyLeTotal(a[1..], b[1..]);
      }
    }
  }

  lemma {:induction false} KeyLeTransitive(a: seq<Term>, b: seq<Term>, c: seq<Term>)
    requires KeyLe(a, b) && KeyLe(b, c)
    ensures KeyLe(a, c)
  {
    if a != [] {
      TermLtOrder(a[0], b[0], c[0]);
      if a[0] == b[0] == c[0] {
        KeyLeTransitive(a[1..], b[1..], c[1..]);
      }
    }
  }

  predicate Sorted<T>(s: seq<T>, key: T -> seq<Term>) {
    forall i, j :: 0 <= i < j < |s| ==> KeyLe(key(s[i]), key(s[j]))
  }

  function Insert<T>(x: T, s: seq<T>, key: T -> seq<Term>): (r: seq<T>)
    requires Sorted(s, key)
    ensures multiset(r) == multiset(s) + multiset{x}
    ensures Sorted(r, key)
  {
    if s == [] then [x]
    else if KeyLe(key(x), key(s[0])) then
      BelowHead(x, s, key);
      SortedCons(x, s, key);
      [x] + s
    else
      KeyLeTotal(key(x), key(s[0]));
      var t := Insert(x, s[1..], key);
      assert s == [s[0]] + s[1..];
      HeadBelowInserted(x, s, key, t);
      SortedCons(s[0], t, key);
      [s[0]] + t
  }

  /** A row no greater than the head of a sorted sequence is no greater
      than any of its rows. */
  lemma BelowHead<T>(x: T, s: seq<T>, key: T -> seq<Term>)
    requires Sorted(s, key) && s != [] && KeyLe(key(x), key(s[0]))
    ensures forall y :: y in s ==> KeyLe(key(x), key(y))
  {
    forall y | y in s ensures KeyLe(key(x), key(y)) {
      var j :| 0 <= j < |s| && s[j] == y;
      if j > 0 {
        KeyLeTransitive(key(x), key(s[0]), key(s[j]));
      }
    }
  }

  /** The head of a sorted sequence is no greater than any row of its tail
      with a row not below the head inserted. */
  lemma HeadBelowInserted<T>(x: T, s: seq<T>, key: T -> seq<Term>, t: seq<T>)
    requires Sorted(s, key) && s != [] && KeyLe(key(s[0]), key(x))
    requires multiset(t) == multiset(s[1..]) + multiset{x}
    ensures forall y :: y in t ==> KeyLe(key(s[0]), key(y))
  {
    forall y | y in t ensures KeyLe(key(s[0]), key(y)) {
      assert y in multiset(t);
      if y != x {
        assert y in multiset(s[1..]);
        var j :| 0 <= j < |s[1..]| && s[1..][j] == y;
        assert s[j + 1] == y;
      }
    }
  }

  /** A row no greater than any row of a sorted sequence can go in front. */
  lemma SortedCons<T>(h: T, t: seq<T>, key: T -> seq<Term>)
    requires Sorted(t, key)
    requires forall y :: y in t ==> KeyLe(key(h), key(y))
    ensures Sorted([h] + t, key)
  {
    var r := [h] + t;
    forall i, j | 0 <= i < j < |r| ensures KeyLe(key(r[i]), key(r[j])) {
      assert r[j] == t[j - 1] && t[j - 1] in t;
      if i > 0 {
        assert r[i] == t[i - 1];
      }
    }
  }

  /** `ORDER BY key`: a permutation of the rows, in key order.  SQL leaves
      the order of rows with equal keys open; this sort keeps them in scan
      order. */
  function SortBy<T>(s: seq<T>, key: T -> seq<Term>): (r: seq<T>)
    ensures multiset(r) == multiset(s)
    ensures Sorted(r, key)
  {
    if s == [] then []
    else
      var rest := SortBy(s[1..], key);
      assert s == [s[0]] + s[1..];
      assert multiset(s) == multiset{s[0]} + multiset(s[1..]);
      Insert(s[0], rest, key)
  }

  /** `r` lists exactly the rows of the scan `s` that satisfy `p`, each as
      often as the scan holds it, in `key` order. */
  ghost predicate Listing<T(!new)>(r: seq<T>, s: seq<T>, p: T -> bool, key: T -> seq<Term>) {
    Sorted(r, key) && multiset(r) == multiset(Filter(s, p))
  }

  /** `r` is a result `SELECT ... WHERE p ORDER BY key LIMIT limit OFFSET
      offset` may return over the scan `s`: the window of some listing of
      the matching rows.  Rows with equal keys may come in either order. */
  ghost predicate IsWindow<T(!new)>(r: seq<T>, s: seq<T>, p: T -> bool, key: T -> seq<Term>, limit: int, offset: int) {
    exists t :: Listing(t, s, p, key) && r == Page(t, limit, offset)
  }

  /** A page holds rows of its input, in the input's order. */
  lemma PageWithin<T>(s: seq<T>, key: T -> seq<Term>, limit: int, offset: int)
    ensures forall x :: x in Page(s, limit, offset) ==> x in multiset(s)
    ensures Sorted(s, key) ==> Sorted(Page(s, limit, offset), key)
  {
    var r := Page(s, limit, offset);
    var start := if offset < 0 then 0 else if offset > |s| then |s| else offset;
    assert forall i :: 0 <= i < |r| ==> r[i] == s[start + i];
  }

  /** `SELECT ... WHERE p ORDER BY key LIMIT limit OFFSET offset`. */
  function Select<T(==,!new)>(s: seq<T>, p: T -> bool, key: T -> seq<Term>, limit: int, offset: int): (r: seq<T>)
    ensures forall x :: x in r ==> x in s && p(x)
    ensures Sorted(r, key)
    ensures limit >= 0 ==> |r| <= limit
    ensures var n := Count(s, p);
      var start := if offset < 0 then 0 else if offset > n then n else offset;
      |r| == if 0 <= limit < n - start then limit else n - start
    ensures limit < 0 && offset <= 0 ==> multiset(r) == multiset(Filter(s, p))
    ensures IsWindow(r, s, p, key, limit, offset)
  {
    var f := Filter(s, p);
    var sorted := SortBy(f, key);
    assert Listing(sorted, s, p, key);
    assert |sorted| == |f| by {
      assert |multiset(sorted)| == |multiset(f)|;
    }
    PageWithin(sorted, key, limit, offset);
    assert forall x :: x in multiset(sorted) ==> x in f;
    Page(sorted, limit, offset)
  }

  /** `SELECT * FROM table WHERE p ORDER BY key` over a whole table whose
      rowids are all below `n`: exactly the matching rows, in key order. */
  function SelectRows<T(==,!new)>(m: map<nat, T>, n: nat, p: T -> bool, key: T -> seq<Term>): (r: seq<T>)
    requires forall k :: k in m ==> k < n
    ensures forall x :: x in r <==> x in m.Values && p(x)
    ensures Listing(r, Rows(m, n), p, key)
  {
    var all := Rows(m, n);
    var f := Filter(all, p);
    var r := SortBy(f, key);
    assert forall x :: x in r <==> x in f by {
      forall x ensures x in r <==> x in f {
        assert x in r <==> x in multiset(r);
        assert x in f <==> x in multiset(f);
      }
    }
    assert forall x :: x in all <==> x in m.Values by {
      forall x ensures x in all <==> x in m.Values {
        if x in m.Values {
          var k :| k in m && m[k] == x;
        }
      }
    }
    r
  }

  // ----------------------------------------------------------- arithmetic

  /** `Math.round(completed / total * 100)`: the percentage rounded to the
      nearest integer, halves rounded up. */
  function Percent(completed: nat, total: nat): (r: int)
    requires total > 0
    ensures 2 * total * r <= 200 * completed + total < 2 * total * (r + 1)
  {
    (200 * completed + total) / (2 * total)
  }

  lemma MulMonotone(a: int, x: int, y: int)
    requires a > 0 && a * x < a * y
    ensures x < y
  {
  }

  /** A share of a total is a percentage between 0 and 100, with both ends
      reached exactly. */
  lemma PercentBounds(completed: nat, total: nat)
    requires 0 < total && completed <= total
    ensures 0 <= Percent(completed, total) <= 100
    ensures Percent(completed, total) == 0 <==> 200 * completed < total
    ensures completed == total ==> Percent(completed, total) == 100
  {
    var r := Percent(completed, total);
    var d := 2 * total;
    assert d * r < d * 101;
    MulMonotone(d, r, 101);
    assert d * (-1) < d * (r + 1);
    MulMonotone(d, -1, r + 1);
    if 200 * completed < total {
      assert d * r < d * 1;
      MulMonotone(d, r, 1);
    }
    if completed == total {
      assert d * 100 < d * (r + 1);
      MulMonotone(d, 100, r + 1);
    }
  }

  /** A JavaScript number as the pagination arithmetic can produce it. */
  datatype JsNumber = Finite(value: int) | NaN | Infinity | NegInfinity

  /** `Math.ceil(x / y)` for a non-zero divisor. */
  function CeilDiv(x: int, y: int): int
    requires y != 0
  {
    if y > 0 then -((-x) / y) else -(x / (-y))
  }

  /** `CeilDiv` is the least integer at least the quotient. */
  lemma CeilDivBounds(x: int, y: int)
    requires y != 0
    ensures y > 0 ==> (CeilDiv(x, y) - 1) * y < x <= CeilDiv(x, y) * y
    ensures y < 0 ==> CeilDiv(x, y) * y <= x < (CeilDiv(x, y) - 1) * y
  {
  }

  /** `Math.ceil(total / limit)` where `limit` came from `parseInt`
      (`None` is `NaN`). */
  function TotalPages(total: nat, limit: Option<int>): JsNumber {
    match limit
    case None => NaN
    case Some(l) =>
      if l == 0 then (if total == 0 then NaN else Infinity)
      else Finite(CeilDiv(total, l))
  }

  /** `(parseInt(page) - 1) * parseInt(limit)`, `None` standing for `NaN`. */
  function Offset(page: Option<int>, limit: Option<int>): Option<int> {
    if page.None? || limit.None? then None else Some((page.value - 1) * limit.value)
  }

  /** With a positive limit the page count is the least number of pages of
      that size that hold every row, and page `p` (1-based) of that many
      starts inside the results. */
  lemma TotalPagesCovers(total: nat, limit: int, page: int)
    requires limit > 0
    ensures TotalPages(total, Some(limit)).Finite?
    ensures var n := TotalPages(total, Some(limit)).value;
      n >= 0 && n * limit >= total && (n == 0 || (n - 1) * limit < total)
    ensures var n := TotalPages(total, Some(limit)).value;
      1 <= page <= n ==> 0 <= Offset(Some(page), Some(limit)).value < total
  {
    var n := CeilDiv(total, limit);
    CeilDivBounds(total, limit);
    if 1 <= page <= n {
      assert (page - 1) * limit <= (n - 1) * limit;
    }
  }
}
