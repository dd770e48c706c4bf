/** Shared vocabulary: instants, results, string order, sorting and filtering. */
module Core {

  /** Instants and durations count nanoseconds; instant 0 is Go's zero time. */
  type Instant = int
  type Duration = int

  const ZERO_INSTANT: Instant := 0
  const MINUTE: Duration := 60_000_000_000
  const HOUR: Duration := 60 * MINUTE
  const DAY: Duration := 24 * HOUR

  /** In nanoseconds. */
  lemma UnitsOfTime()
    ensures MINUTE == 60_000_000_000 && HOUR == 3_600_000_000_000 && DAY == 86_400_000_000_000
  {
  }

  datatype Option<+T> = None | Some(value: T)

  /** The error values of internal/domain/errors.go, a raw database error, and the error of
      a context that is done. */
  datatype Error = Invalid | NotFound | Conflict | Forbidden | BadState | Database | Interrupted

  datatype Result<+T> = Ok(value: T) | Err(error: Error) {
    predicate IsFailure() { Err? }
    function PropagateFailure<U>(): Result<U>
      requires Err?
    {
      Err(error)
    }
    function Extract(): T
      requires Ok?
    {
      value
    }
  }

  function Max(a: int, b: int): int { if a < b then b else a }

  function Min(a: int, b: int): int { if a < b then a else b }

  // ---- Strings -------------------------------------------------------------

  /** Lexicographic order by code point, which is Go's byte order on UTF-8. */
  predicate StringLess(a: string, b: string) {
    if b == "" then false
    else if a == "" then true
    else if a[0] == b[0] then StringLess(a[1..], b[1..])
    else a[0] < b[0]
  }

  predicate StringLeq(a: string, b: string) { a == b || StringLess(a, b) }

  lemma {:induction false} StringLessTrichotomy(a: string, b: string)
    ensures StringLess(a, b) || a == b || StringLess(b, a)
    ensures !(StringLess(a, b) && StringLess(b, a))
    ensures a == b ==> !StringLess(a, b)
  {
    if a != "" && b != "" && a[0] == b[0] {
      StringLessTrichotomy(a[1..], b[1..]);
      assert a == [a[0]] + a[1..] && b == [b[0]] + b[1..];
    }
  }

  lemma {:induction false} StringLessTransitive(a: string, b: string, c: string)
    requires StringLess(a, b) && StringLess(b, c)
    ensures StringLess(a, c)
  {
    if a != "" && a[0] == b[0] && b[0] == c[0] {
      StringLessTransitive(a[1..], b[1..], c[1..]);
    }
  }

  lemma StringLessIsStrictOrder()
    ensures forall a, b :: StringLess(a, b) || a == b || StringLess(b, a)
    ensures forall a, b :: StringLess(a, b) ==> !StringLess(b, a) && a != b
    ensures forall a, b, c :: StringLess(a, b) && StringLess(b, c) ==> StringLess(a, c)
  {
    forall a, b
      ensures StringLess(a, b) || a == b || StringLess(b, a)
      ensures StringLess(a, b) ==> !StringLess(b, a) && a != b
    {
      StringLessTrichotomy(a, b);
    }
    forall a, b, c | StringLess(a, b) && StringLess(b, c)
      ensures StringLess(a, c)
    {
      StringLessTransitive(a, b, c);
    }
  }

  /** The shorter of two strings that agree comes first; else the first difference decides. */
  ghost predicate Lexicographic(a: string, b: string) {
    || (|a| < |b| && b[..|a|] == a)
    || exists k :: FirstDifference(a, b, k) && a[k] < b[k]
  }

  ghost predicate FirstDifference(a: string, b: string, k: int) {
    0 <= k < |a| && k < |b| && a[k] != b[k] && forall i :: 0 <= i < k ==> a[i] == b[i]
  }

  lemma {:induction false} StringLessTells(a: string, b: string)
    ensures StringLess(a, b) <==> Lexicographic(a, b)
  {
    if a != "" && b != "" {
      if a[0] == b[0] {
        StringLessTells(a[1..], b[1..]);
        SameHead(a, b);
      } else {
        assert FirstDifference(a, b, 0);
        assert forall k :: FirstDifference(a, b, k) ==> k == 0;
        assert |a| < |b| ==> b[..|a|][0] == b[0];
      }
    }
  }

  lemma SameHead(a: string, b: string)
    requires a != "" && b != "" && a[0] == b[0]
    ensures Lexicographic(a, b) <==> Lexicographic(a[1..], b[1..])
  {
    var a', b' := a[1..], b[1..];
    forall k | FirstDifference(a', b', k)
      ensures FirstDifference(a, b, k + 1)
    {
      assert forall i :: 0 < i < k + 1 ==> a[i] == a'[i - 1] && b[i] == b'[i - 1];
    }
    forall k | FirstDifference(a, b, k)
      ensures FirstDifference(a', b', k - 1)
    {
      assert forall i :: 0 <= i < k - 1 ==> a'[i] == a[i + 1] && b'[i] == b[i + 1];
    }
    assert a == [a[0]] + a' && b == [b[0]] + b';
    assert |a| < |b| ==> b[..|a|] == [b[0]] + b'[..|a'|];
    assert |a| < |b| && b[..|a|] == a ==> b'[..|a'|] == b[..|a|][1..];
  }

  /** The white space that Go's strings.TrimSpace removes. */
  predicate IsSpace(c: char) {
    || c in {' ', '\t', '\n', '\r', '\U{0B}', '\U{0C}', '\U{85}', '\U{A0}', '\U{1680}'}
    || '\U{2000}' <= c <= '\U{200A}'
    || c in {'\U{2028}', '\U{2029}', '\U{202F}', '\U{205F}', '\U{3000}'}
  }

  function TrimSpace(s: string): string {
    if s == "" then ""
    else if IsSpace(s[0]) then TrimSpace(s[1..])
    else if IsSpace(s[|s| - 1]) then TrimSpace(s[..|s| - 1])
    else s
  }

  predicate White(c: char) {
    var n := c as int;
    9 <= n <= 13 || n in {32, 133, 160, 5760, 8232, 8233, 8239, 8287, 12288} || 8192 <= n <= 8202
  }

  /** The middle part is what is left of the string without the white space at both ends. */
  ghost predicate Trimmed(s: string, i: nat, j: nat) {
    && i <= j <= |s|
    && (forall k :: 0 <= k < i || j <= k < |s| ==> White(s[k]))
    && (i < j ==> !White(s[i]) && !White(s[j - 1]))
  }

  lemma {:induction false} TrimTells(s: string) returns (i: nat, j: nat)
    ensures Trimmed(s, i, j) && TrimSpace(s) == s[i..j]
  {
    if s == "" {
      return 0, 0;
    } else if IsSpace(s[0]) {
      i, j := TrimTells(s[1..]);
      FrontCut(s, i, j);
      return i + 1, j + 1;
    } else if IsSpace(s[|s| - 1]) {
      i, j := TrimTells(s[..|s| - 1]);
      BackCut(s, i, j);
    } else {
      assert s[0..|s|] == s;
      return 0, |s|;
    }
  }

  lemma FrontCut(s: string, i: nat, j: nat)
    requires s != "" && White(s[0]) && Trimmed(s[1..], i, j)
    ensures Trimmed(s, i + 1, j + 1) && s[i + 1..j + 1] == s[1..][i..j]
  {
    assert forall k :: 0 < k < |s| ==> s[k] == s[1..][k - 1];
  }

  lemma BackCut(s: string, i: nat, j: nat)
    requires s != "" && White(s[|s| - 1]) && Trimmed(s[..|s| - 1], i, j)
    ensures Trimmed(s, i, j) && s[i..j] == s[..|s| - 1][i..j]
  {
    assert forall k :: 0 <= k < |s| - 1 ==> s[k] == s[..|s| - 1][k];
  }

  // ---- Strictly ascending string lists -------------------------------------

  ghost predicate Ascending(s: seq<string>) {
    forall i, j :: 0 <= i < j < |s| ==> StringLess(s[i], s[j])
  }

  lemma {:induction false} AscendingUnique(a: seq<string>, b: seq<string>)
    requires Ascending(a) && Ascending(b)
    requires forall k :: k in a <==> k in b
    ensures a == b
  {
    FirstIsIn(a);
    FirstIsIn(b);
    if a != [] && b != [] {
      SameLeast(a, b);
      AscendingUnique(a[1..], b[1..]);
      assert a == [a[0]] + a[1..] && b == [b[0]] + b[1..];
    }
  }

  lemma FirstIsIn<T>(s: seq<T>)
    ensures s != [] ==> s[0] in s
  {
  }

  lemma SameLeast(a: seq<string>, b: seq<string>)
    requires Ascending(a) && Ascending(b) && a != [] && b != []
    requires forall k :: k in a <==> k in b
    ensures a[0] == b[0] && forall k :: k in a[1..] <==> k in b[1..]
  {
    LeastFirst(a, b[0]);
    LeastFirst(b, a[0]);
    StringLessTrichotomy(a[0], b[0]);
    NotAgain(a);
    NotAgain(b);
    forall k
      ensures k in a[1..] <==> k in b[1..]
    {
      assert k in a <==> k == a[0] || k in a[1..];
      assert k in b <==> k == b[0] || k in b[1..];
    }
  }

  lemma LeastFirst(s: seq<string>, x: string)
    requires Ascending(s) && x in s
    ensures s[0] == x || StringLess(s[0], x)
  {
    var i :| 0 <= i < |s| && s[i] == x;
  }

  lemma NotAgain(s: seq<string>)
    requires Ascending(s) && s != []
    ensures s[0] !in s[1..]
  {
    forall i | 0 <= i < |s[1..]|
      ensures s[1..][i] != s[0]
    {
      StringLessTrichotomy(s[0], s[i + 1]);
    }
  }

  function InsertAscending(x: string, s: seq<string>): (r: seq<string>) {
    if s == [] || StringLess(x, s[0]) then [x] + s
    else [s[0]] + InsertAscending(x, s[1..])
  }

  lemma {:induction false} InsertAscendingKeepsOrder(x: string, s: seq<string>)
    requires Ascending(s) && x !in s
    ensures Ascending(InsertAscending(x, s))
    ensures forall k :: k in InsertAscending(x, s) <==> k == x || k in s
  {
    StringLessIsStrictOrder();
    if s != [] && !StringLess(x, s[0]) {
      assert s == [s[0]] + s[1..];
      InsertAscendingKeepsOrder(x, s[1..]);
      var r := InsertAscending(x, s[1..]);
      assert forall k :: k in r ==> StringLess(s[0], k);
      assert forall i :: 0 <= i < |r| ==> r[i] in r;
    }
  }

  /** The elements of a set of strings in ascending order. */
  ghost function SortedStrings(s: set<string>): (r: seq<string>)
    ensures Ascending(r)
    ensures forall k :: k in r <==> k in s
  {
    if s == {} then []
    else
      var k :| k in s;
      InsertAscendingKeepsOrder(k, SortedStrings(s - {k}));
      InsertAscending(k, SortedStrings(s - {k}))
  }

  /** The length of a string in bytes, which is what Go's len counts. */
  function ByteLength(s: string): nat {
    if s == "" then 0
    else
      var c := s[0];
      (if c < '\U{80}' then 1 else if c < '\U{800}' then 2 else if c < '\U{10000}' then 3 else 4) + ByteLength(s[1..])
  }

  /** Bytes add up over the parts of a string. */
  lemma {:induction false} ByteLengthAdds(a: string, b: string)
    ensures ByteLength(a + b) == ByteLength(a) + ByteLength(b)
  {
    if a == "" {
      assert a + b == b;
    } else {
      assert (a + b)[1..] == a[1..] + b;
      ByteLengthAdds(a[1..], b);
    }
  }

  /** One byte for each ASCII character, and up to four for others. */
  lemma ByteLengthOfOne(c: char)
    ensures ByteLength([c]) ==
            var n := c as int; if n <= 127 then 1 else if n <= 2047 then 2 else if n <= 65535 then 3 else 4
  {
    assert [c][1..] == "";
  }

  // ---- Sorting -------------------------------------------------------------

  ghost predicate TotalPreorder<T(!new)>(le: (T, T) -> bool) {
    && (forall x, y :: le(x, y) || le(y, x))
    && (forall x, y, z :: le(x, y) && le(y, z) ==> le(x, z))
  }

  ghost predicate SortedBy<T(!new)>(le: (T, T) -> bool, s: seq<T>) {
    forall i, j :: 0 <= i < j < |s| ==> le(s[i], s[j])
  }

  /** Stands for Go's sort.Slice: callers may rely on a sorted permutation and on
      nothing else, so ties come out in an unspecified order. */
  method Sort<T(!new)>(le: (T, T) -> bool, s: seq<T>) returns (r: seq<T>)
    requires TotalPreorder(le)
    ensures SortedBy(le, r)
    ensures multiset(r) == multiset(s)
    ensures |r| == |s|
    ensures forall x :: x in r <==> x in s
  {
    r := [];
    for i := 0 to |s|
      invariant SortedBy(le, r)
      invariant |r| == i
      invariant multiset(r) == multiset(s[..i])
    {
      var k := 0;
      while k < |r| && le(r[k], s[i])
        invariant 0 <= k <= |r|
        invariant forall j :: 0 <= j < k ==> le(r[j], s[i])
      {
        k := k + 1;
      }
      InsertKeepsOrder(le, r, k, s[i]);
      assert s[..i + 1] == s[..i] + [s[i]];
      r := r[..k] + [s[i]] + r[k..];
    }
    assert s[..|s|] == s;
    SameElements(r, s);
  }

  lemma InsertKeepsOrder<T(!new)>(le: (T, T) -> bool, r: seq<T>, k: nat, x: T)
    requires TotalPreorder(le) && SortedBy(le, r) && k <= |r|
    requires forall j :: 0 <= j < k ==> le(r[j], x)
    requires k < |r| ==> !le(r[k], x)
    ensures SortedBy(le, r[..k] + [x] + r[k..])
    ensures multiset(r[..k] + [x] + r[k..]) == multiset(r) + multiset{x}
  {
    forall j | k <= j < |r|
      ensures le(x, r[j])
    {
      assert le(x, r[k]);
    }
    SplitSorted(le, r, k, x);
    InsertMultiset(r, k, x);
  }

  lemma SplitSorted<T(!new)>(le: (T, T) -> bool, r: seq<T>, k: nat, x: T)
    requires SortedBy(le, r) && k <= |r|
    requires forall j :: 0 <= j < k ==> le(r[j], x)
    requires forall j :: k <= j < |r| ==> le(x, r[j])
    ensures SortedBy(le, r[..k] + [x] + r[k..])
  {
    var r' := r[..k] + [x] + r[k..];
    forall i, j | 0 <= i < j < |r'|
      ensures le(r'[i], r'[j])
    {
      if i == k {
        assert r'[j] == r[j - 1];
      } else {
        var i' := if i < k then i else i - 1;
        assert r'[i] == r[i'];
        if j != k {
          assert r'[j] == r[if j < k then j else j - 1];
        }
      }
    }
  }

  lemma InsertMultiset<T>(r: seq<T>, k: nat, x: T)
    requires k <= |r|
    ensures multiset(r[..k] + [x] + r[k..]) == multiset(r) + multiset{x}
  {
    assert r == r[..k] + r[k..];
  }

  lemma SameElements<T>(a: seq<T>, b: seq<T>)
    requires multiset(a) == multiset(b)
    ensures |a| == |b|
    ensures forall x :: x in a <==> x in b
  {
    assert |a| == |multiset(a)| && |b| == |multiset(b)|;
    forall x
      ensures x in a <==> x in b
    {
      assert x in a <==> x in multiset(a);
      assert x in b <==> x in multiset(b);
    }
  }

  /** When no two different elements tie, there is only one sorted permutation. */
  lemma {:induction false} SortedPermutationUnique<T(!new)>(le: (T, T) -> bool, a: seq<T>, b: seq<T>)
    requires SortedBy(le, a) && SortedBy(le, b)
    requires multiset(a) == multiset(b)
    requires forall x, y :: x in a && y in a && le(x, y) && le(y, x) ==> x == y
    decreases |a|
    ensures a == b
  {
    SameElements(a, b);
    if a != [] {
      HeadIsLeast(le, a, b[0]);
      HeadIsLeast(le, b, a[0]);
      assert a[0] == b[0];
      TailMultiset(a);
      TailMultiset(b);
      SortedPermutationUnique(le, a[1..], b[1..]);
      assert a == [a[0]] + a[1..] && b == [b[0]] + b[1..];
    }
  }

  lemma HeadIsLeast<T(!new)>(le: (T, T) -> bool, a: seq<T>, x: T)
    requires SortedBy(le, a) && x in a
    ensures x == a[0] || le(a[0], x)
  {
  }

  lemma TailMultiset<T>(a: seq<T>)
    requires a != []
    ensures multiset(a[1..]) == multiset(a) - multiset{a[0]}
    ensures forall x :: x in a[1..] ==> x in a
  {
    assert a == [a[0]] + a[1..];
  }

  lemma StringOrderIsPreorder()
    ensures TotalPreorder(StringLeq)
  {
    StringLessIsStrictOrder();
  }

  /** Collects a set in whatever order and sorts it, as Go does with map keys. */
  method SortKeys(s: set<string>) returns (r: seq<string>)
    ensures r == SortedStrings(s)
  {
    var rest := s;
    var found: seq<string> := [];
    while rest != {}
      invariant forall k :: k in s <==> k in rest || k in found
      invariant rest <= s
      invariant forall k :: k in rest ==> k !in found
      invariant forall i, j :: 0 <= i < j < |found| ==> found[i] != found[j]
      decreases rest
    {
      var k :| k in rest;
      rest := rest - {k};
      found := found + [k];
    }
    StringOrderIsPreorder();
    r := Sort(StringLeq, found);
    DistinctStaysDistinct(found, r);
    StringLessIsStrictOrder();
    assert Ascending(r);
    AscendingUnique(r, SortedStrings(s));
  }

  predicate NoRepeats<T(==)>(s: seq<T>) {
    forall i, j :: 0 <= i < j < |s| ==> s[i] != s[j]
  }

  lemma {:induction false} NoRepeatsCounts<T>(s: seq<T>)
    requires NoRepeats(s)
    ensures forall x :: multiset(s)[x] <= 1
  {
    if s != [] {
      var front, last := s[..|s| - 1], s[|s| - 1];
      assert s == front + [last];
      NoRepeatsCounts(front);
      assert last !in front;
      assert multiset(front)[last] == 0;
    }
  }

  lemma RepeatCounts<T>(s: seq<T>, i: nat, j: nat)
    requires i < j < |s| && s[i] == s[j]
    ensures multiset(s)[s[i]] >= 2
  {
    assert s == s[..j] + [s[j]] + s[j + 1..];
    assert s[..j][i] == s[i];
    assert s[i] in multiset(s[..j]);
  }

  lemma DistinctStaysDistinct<T>(a: seq<T>, b: seq<T>)
    requires NoRepeats(a) && multiset(a) == multiset(b)
    ensures NoRepeats(b)
  {
    NoRepeatsCounts(a);
    forall i, j | 0 <= i < j < |b|
      ensures b[i] != b[j]
    {
      if b[i] == b[j] {
        RepeatCounts(b, i, j);
      }
    }
  }

  // ---- Filtering -----------------------------------------------------------

  /** The rows of a query result, with their order forgotten. */
  ghost function Rows<T>(s: seq<T>): set<T> { set x | x in s }

  lemma RowsAppend<T>(s: seq<T>, x: T)
    ensures Rows(s + [x]) == Rows(s) + {x}
  {
  }

  /** The rows that satisfy a WHERE clause, in table order. */
  function Select<T>(s: seq<T>, p: T -> bool): (r: seq<T>) {
    if s == [] then []
    else
      var rest := Select(s[..|s| - 1], p);
      if p(s[|s| - 1]) then rest + [s[|s| - 1]] else rest
  }

  lemma SelectAppend<T>(s: seq<T>, x: T, p: T -> bool)
    ensures Select(s + [x], p) == if p(x) then Select(s, p) + [x] else Select(s, p)
  {
    assert (s + [x])[..|s|] == s;
  }

  lemma {:induction false} SelectMembers<T(!new)>(s: seq<T>, p: T -> bool)
    ensures forall x :: x in Select(s, p) <==> x in s && p(x)
  {
    if s != [] {
      var front := s[..|s| - 1];
      assert s == front + [s[|s| - 1]];
      SelectMembers(front, p);
    }
  }

  lemma {:induction false} SelectNone<T>(s: seq<T>, p: T -> bool)
    requires forall x :: x in s ==> !p(x)
    ensures Select(s, p) == []
  {
    if s != [] {
      SelectNone(s[..|s| - 1], p);
    }
  }

  // ---- Sums over tables ----------------------------------------------------

  ghost function SumMap<V(!new)>(m: map<string, V>, w: V -> int): int {
    if m == map[] then 0
    else
      var k :| k in m;
      w(m[k]) + SumMap(m - {k}, w)
  }

  lemma {:induction false} SumMapRemove<V(!new)>(m: map<string, V>, k: string, w: V -> int)
    requires k in m
    ensures SumMap(m, w) == w(m[k]) + SumMap(m - {k}, w)
    decreases |m|
  {
    var j :| j in m && SumMap(m, w) == w(m[j]) + SumMap(m - {j}, w);
    if j != k {
      SumMapRemove(m - {j}, k, w);
      SumMapRemove(m - {k}, j, w);
      assert m - {j} - {k} == m - {k} - {j};
    }
  }

  lemma SumMapUpdate<V(!new)>(m: map<string, V>, k: string, v: V, w: V -> int)
    ensures SumMap(m[k := v], w) == SumMap(m, w) + w(v) - (if k in m then w(m[k]) else 0)
  {
    var n := m[k := v];
    SumMapRemove(n, k, w);
    assert n - {k} == m - {k};
    if k in m {
      SumMapRemove(m, k, w);
    } else {
      assert m - {k} == m;
    }
  }
}
