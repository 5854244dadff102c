/** The address autocomplete: the query string becomes a search term and a
    limit, and the active addresses whose name contains the term come back
    with those starting with it first, then by name, at most `limit` of
    them. */
module AddressSearch {
  import opened Common
  import Sorting

  /** A row of `damteul_addresses`. */
  datatype AddressRow = AddressRow(addrId: int, fullName: string, sido: string, sigungu: string, dong: string, isActive: int)

  /** The limit when the request gives none, and the largest one honoured. */
  const DEFAULT_LIMIT: int := 10
  const MAX_LIMIT: int := 30

  predicate IsDigit(c: char)
  {
    '0' <= c <= '9'
  }

  /** The longest prefix of decimal digits. */
  function LeadingDigits(s: string): (r: string)
    ensures |r| <= |s| && r == s[..|r|]
    ensures forall i :: 0 <= i < |r| ==> IsDigit(r[i])
    ensures |r| < |s| ==> !IsDigit(s[|r|])
  {
    if s == [] || !IsDigit(s[0]) then [] else [s[0]] + LeadingDigits(s[1..])
  }

  /** The number a string of decimal digits denotes. */
  function DigitsValue(d: string): nat
    requires forall i :: 0 <= i < |d| ==> IsDigit(d[i])
  {
    if d == [] then 0
    else
      assert IsDigit(d[|d| - 1]);
      DigitsValue(d[..|d| - 1]) * 10 + (d[|d| - 1] as int - '0' as int)
  }

  /** `parseInt(s, 10)`: leading white space, an optional sign, then as many
      decimal digits as there are; `None` stands for `NaN` (no digit). */
  function ParseInt(s: string): (r: Option<int>)
  {
    var t := TrimStart(s);
    var negative := t != [] && t[0] == '-';
    var body := if t != [] && (t[0] == '-' || t[0] == '+') then t[1..] else t;
    var digits := LeadingDigits(body);
    var v: int := if digits == [] then 0 else DigitsValue(digits);
    if digits == [] then None
    else if negative then Some(-v)
    else Some(v)
  }

  lemma {:induction false} DigitsValueOfDecimal(n: nat)
    ensures DigitsValue(NatToString(n)) == n
  {
    var d := NatToString(n);
    if n < 10 {
      DigitCharValue(n);
      assert d[..0] == [];
    } else {
      DigitsValueOfDecimal(n / 10);
      DigitCharValue(n % 10);
      assert d[..|d| - 1] == NatToString(n / 10);
      assert d[|d| - 1] == DigitChar(n % 10);
      assert n == (n / 10) * 10 + n % 10;
    }
  }

  lemma DigitCharValue(k: int)
    requires 0 <= k < 10
    ensures DigitChar(k) as int - '0' as int == k
  {
  }

  /** `parseInt` reads back what a number prints as, and stops at the
      first character that is not a digit. */
  lemma ParseIntOfDecimal(n: nat, rest: string)
    requires rest == [] || !IsDigit(rest[0])
    ensures ParseInt(NatToString(n)) == Some(n)
    ensures ParseInt(NatToString(n) + rest) == Some(n)
  {
    var d := NatToString(n);
    DigitsValueOfDecimal(n);
    ParseIntOfDigits(d, []);
    ParseIntOfDigits(d, rest);
    assert d + [] == d;
  }

  /** A run of digits followed by a non-digit parses as the run's value. */
  lemma ParseIntOfDigits(d: string, rest: string)
    requires d != [] && forall i :: 0 <= i < |d| ==> IsDigit(d[i])
    requires rest == [] || !IsDigit(rest[0])
    ensures ParseInt(d + rest) == Some(DigitsValue(d))
  {
    var s := d + rest;
    assert s[0] == d[0];
    assert !IsSpace(s[0]);
    assert TrimStart(s) == s;
    assert s[0] != '-' && s[0] != '+';
    LeadingDigitsOfDigits(d, rest);
    assert LeadingDigits(s) == d;
  }

  lemma {:induction false} LeadingDigitsOfDigits(d: string, rest: string)
    requires forall i :: 0 <= i < |d| ==> IsDigit(d[i])
    requires rest == [] || !IsDigit(rest[0])
    ensures LeadingDigits(d + rest) == d
  {
    if d != [] {
      LeadingDigitsOfDigits(d[1..], rest);
      assert (d + rest)[1..] == d[1..] + rest;
      assert d == [d[0]] + d[1..];
    } else {
      assert d + rest == rest;
    }
  }

  /** `Math.min(parseInt(limit || "10", 10), 30)`; `None` is `NaN`. */
  function Limit(param: Option<string>): (r: Option<int>)
    ensures Falsy(param) ==> r == Some(DEFAULT_LIMIT)
    ensures !Falsy(param) ==> (r.None? <==> ParseInt(param.value).None?)
    ensures !Falsy(param) && r.Some? ==>
              r.value == if ParseInt(param.value).value < MAX_LIMIT then ParseInt(param.value).value else MAX_LIMIT
    ensures r.Some? ==> r.value <= MAX_LIMIT
  {
    var n := if Falsy(param) then Some(DEFAULT_LIMIT) else ParseInt(param.value);
    if n.None? then None
    else if n.value < MAX_LIMIT then n
    else Some(MAX_LIMIT)
  }

  /** A decimal limit is honoured up to 30. */
  lemma LimitOfDecimal(n: nat)
    ensures Limit(Some(NatToString(n))) == Some(if n < MAX_LIMIT then n else MAX_LIMIT)
  {
    ParseIntOfDecimal(n, []);
  }

  /** MySQL's `s LIKE p` with its two wildcards, `%` (any run of
      characters) and `_` (any one character). */
  predicate Like(s: string, p: string)
    decreases |p|, |s|
  {
    if p == [] then s == []
    else if p[0] == '%' then Like(s, p[1..]) || (s != [] && Like(s[1..], p))
    else s != [] && (p[0] == '_' || p[0] == s[0]) && Like(s[1..], p[1..])
  }

  /** A term without wildcards. */
  predicate Literal(t: string)
  {
    '%' !in t && '_' !in t
  }

  lemma {:induction false} LikeAnything(s: string)
    ensures Like(s, "%")
  {
    if s != [] {
      LikeAnything(s[1..]);
    }
  }

  /** The starts-with pattern `term%` matches exactly the names that start
      with the term. */
  lemma {:induction false} LikeStarts(s: string, t: string)
    requires Literal(t)
    ensures Like(s, t + "%") <==> StartsWith(s, t)
  {
    if t == [] {
      LikeAnything(s);
      assert t + "%" == "%";
    } else {
      assert (t + "%")[0] == t[0] && (t + "%")[1..] == t[1..] + "%";
      assert Literal(t[1..]) by { assert forall c :: c in t[1..] ==> c in t; }
      if s != [] {
        LikeStarts(s[1..], t[1..]);
        assert StartsWith(s, t) <==> s[0] == t[0] && StartsWith(s[1..], t[1..]) by {
          if |t| <= |s| {
            assert s[..|t|] == [s[0]] + s[1..][..|t| - 1];
            assert t == [t[0]] + t[1..];
          }
        }
      }
    }
  }

  /** The contains pattern `%term%` matches exactly the names that contain
      the term. */
  lemma {:induction false} LikeContains(s: string, t: string)
    requires Literal(t)
    ensures Like(s, "%" + t + "%") <==> Contains(s, t)
  {
    assert ("%" + t + "%")[1..] == t + "%";
    LikeStarts(s, t);
    if s != [] {
      LikeContains(s[1..], t);
    }
  }

  /** The term is not escaped: a `_` in it matches any character, so the
      search `_` lists every address with a non-empty name. */
  lemma UnderscoreMatchesAnyName(s: string)
    requires s != []
    ensures Like(s, "%" + "_" + "%")
  {
    assert ("%" + "_" + "%")[1..] == "_%";
    assert "_%"[1..] == "%";
    LikeAnything(s[1..]);
  }

  /** The name as the query compares it: `REPLACE(full_name, ' ', '')`. */
  function Squeezed(row: AddressRow): string
  {
    RemoveChar(row.fullName, ' ')
  }

  /** `is_active = 1 AND REPLACE(full_name, ' ', '') LIKE '%term%'`. */
  predicate Matches(row: AddressRow, term: string)
  {
    row.isActive == 1 && Like(Squeezed(row), "%" + term + "%")
  }

  /** `CASE WHEN … LIKE 'term%' THEN 0 ELSE 1 END`. */
  function Rank(row: AddressRow, term: string): (r: int)
    ensures r == 0 || r == 1
  {
    if Like(Squeezed(row), term + "%") then 0 else 1
  }

  /** A matching row with its rank: what the ORDER BY sorts. */
  datatype Ranked = Ranked(rank: int, row: AddressRow)

  /** `a` comes strictly before `b` under `ORDER BY rank, full_name ASC`. */
  predicate Before(a: Ranked, b: Ranked)
  {
    a.rank < b.rank || (a.rank == b.rank && LexLess(a.row.fullName, b.row.fullName))
  }

  lemma {:induction false} BeforeTotal(a: Ranked, b: Ranked)
    ensures Before(a, b) || Before(b, a) || (a.rank == b.rank && a.row.fullName == b.row.fullName)
  {
    LexLessTotal(a.row.fullName, b.row.fullName);
  }

  lemma {:induction false} NotBeforeTransitive(a: Ranked, b: Ranked, c: Ranked)
    requires !Before(b, a) && !Before(c, b)
    ensures !Before(c, a)
  {
    BeforeTotal(a, b);
    BeforeTotal(b, c);
    if Before(c, a) {
      if a.rank == b.rank == c.rank {
        if LexLess(a.row.fullName, b.row.fullName) && LexLess(b.row.fullName, c.row.fullName) {
          LexLessTransitive(a.row.fullName, b.row.fullName, c.row.fullName);
          LexLessAsymmetric(a.row.fullName, c.row.fullName);
        } else if LexLess(a.row.fullName, b.row.fullName) {
          LexLessAsymmetric(a.row.fullName, c.row.fullName);
        } else if LexLess(b.row.fullName, c.row.fullName) {
          LexLessAsymmetric(a.row.fullName, c.row.fullName);
        } else {
          LexLessIrreflexive(a.row.fullName);
        }
      }
    }
  }

  /** The query order is one an `ORDER BY` can sort by. */
  lemma BeforeIsStrictWeakOrder()
    ensures Sorting.StrictWeakOrder(Before)
  {
    forall a, b | Before(a, b) ensures !Before(b, a) {
      if a.rank == b.rank && LexLess(a.row.fullName, b.row.fullName) {
        LexLessAsymmetric(a.row.fullName, b.row.fullName);
      }
    }
    forall a, b, c | !Before(a, b) && !Before(b, c) ensures !Before(a, c) {
      NotBeforeTransitive(c, b, a);
    }
  }

  /** The matching rows of the table, in table order, with their ranks. */
  function Candidates(table: seq<AddressRow>, term: string): (r: seq<Ranked>)
    ensures forall x :: x in r <==> x.row in table && Matches(x.row, term) && x.rank == Rank(x.row, term)
    ensures |r| <= |table|
  {
    if table == [] then []
    else
      var rest := Candidates(table[1..], term);
      assert forall a :: a in table <==> a == table[0] || a in table[1..];
      (if Matches(table[0], term) then [Ranked(Rank(table[0], term), table[0])] else []) + rest
  }

  /** What the search answers with, per row. */
  datatype AddressItem = AddressItem(addrId: int, fullName: string, sido: string, sigungu: string, dong: string)

  function ItemOf(row: AddressRow): AddressItem
  {
    AddressItem(row.addrId, row.fullName, row.sido, row.sigungu, row.dong)
  }

  /** `searchAddresses`.  A missing or blank `q` answers `[]` without a
      query; otherwise the term is `q` without any white space, and the
      query fails (500) on a limit that is `NaN` or negative, which MySQL
      does not accept after `LIMIT`. */
  function Search(q: Option<string>, limitParam: Option<string>, table: seq<AddressRow>, fault: Fault)
    : (r: (int, seq<AddressItem>))
    ensures r.0 == OK || r.0 == SERVER_ERROR
    ensures r.0 == SERVER_ERROR ==> r.1 == []
    ensures MissingOrBlank(q) ==> r == (OK, [])
  {
    var query := if Falsy(q) then "" else Trim(q.value);
    var limit := Limit(limitParam);
    if query == [] then (OK, [])
    else if FailsAt(fault, 0) || limit.None? || limit.value < 0 then (SERVER_ERROR, [])
    else
      (OK, TopMatches(table, RemoveSpaces(query), limit.value))
  }

  /** The rows the query returns: the first `limit` matches in query
      order. */
  function TopMatches(table: seq<AddressRow>, term: string, limit: nat): (r: seq<AddressItem>)
  {
    var sorted := Sorting.Sort(Candidates(table, term), Before);
    var n := if limit < |sorted| then limit else |sorted|;
    seq(n, i requires 0 <= i < n => ItemOf(sorted[i].row))
  }

  /** A non-blank query with a usable limit answers 200 with
      `min(limit, matches)` active rows whose squeezed name contains `q`
      without its white space, taken from the front of the matching rows
      in query order (those starting with the term first, then by name),
      which hold every matching row of the table. */
  lemma SearchSpec(q: string, limitParam: Option<string>, table: seq<AddressRow>, fault: Fault)
    requires !IsBlank(q) && !FailsAt(fault, 0)
    requires Limit(limitParam).Some? && Limit(limitParam).value >= 0
    ensures var term := RemoveSpaces(Trim(q));
            var limit := Limit(limitParam).value;
            var sorted := Sorting.Sort(Candidates(table, term), Before);
            var r := Search(Some(q), limitParam, table, fault);
            && r.0 == OK
            && |r.1| == (if limit < |sorted| then limit else |sorted|)
            && multiset(sorted) == multiset(Candidates(table, term))
            && (forall i :: 0 <= i < |r.1| ==>
                  r.1[i] == ItemOf(sorted[i].row) && sorted[i].row in table && Matches(sorted[i].row, term))
            && (forall i, j :: 0 <= i < j < |sorted| ==> !Before(sorted[j], sorted[i]))
  {
    var term := RemoveSpaces(Trim(q));
    assert Search(Some(q), limitParam, table, fault) == (OK, TopMatches(table, term, Limit(limitParam).value));
    TopMatchesFront(table, term, Limit(limitParam).value);
  }

  /** The top matches are the front of the sorted candidates. */
  lemma TopMatchesFront(table: seq<AddressRow>, term: string, limit: nat)
    ensures var sorted := Sorting.Sort(Candidates(table, term), Before);
            var items := TopMatches(table, term, limit);
            && |items| == (if limit < |sorted| then limit else |sorted|)
            && (forall i :: 0 <= i < |items| ==>
                  items[i] == ItemOf(sorted[i].row) && sorted[i].row in table && Matches(sorted[i].row, term))
            && (forall i, j :: 0 <= i < j < |sorted| ==> !Before(sorted[j], sorted[i]))
  {
    SortSpec(Candidates(table, term));
  }

  /** Sorting keeps the rows and leaves no row before an earlier one. */
  lemma SortSpec(c: seq<Ranked>)
    ensures forall i :: 0 <= i < |Sorting.Sort(c, Before)| ==> Sorting.Sort(c, Before)[i] in c
    ensures forall i, j :: 0 <= i < j < |Sorting.Sort(c, Before)| ==>
              !Before(Sorting.Sort(c, Before)[j], Sorting.Sort(c, Before)[i])
  {
    var sorted := Sorting.Sort(c, Before);
    BeforeIsStrictWeakOrder();
    Sorting.SortOrdered(c, Before);
    forall i | 0 <= i < |sorted| ensures sorted[i] in c {
      assert sorted[i] in multiset(sorted);
    }
  }

  /** The rank puts the rows that start with the term first: a returned row
      that does not start with it means no row that does was left out. */
  lemma StartsWithRanksFirst(row: AddressRow, term: string)
    requires Literal(term)
    ensures Rank(row, term) == 0 <==> StartsWith(Squeezed(row), term)
    ensures Matches(row, term) <==> row.isActive == 1 && Contains(Squeezed(row), term)
  {
    LikeStarts(Squeezed(row), term);
    LikeContains(Squeezed(row), term);
  }
}
