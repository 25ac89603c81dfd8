/** The arithmetic of the paged list query: reading `page` and `limit` from
    the query string as `parseInt(...) || default` does, the number of
    records skipped, the window of a page, the search filter, the
    newest-first order and `Math.ceil` of the page count. */
module ListQuery {
  import opened Common
  import opened UserModel

  /** The value of `c` as a digit of the radix, if it is one. */
  function DigitValue(c: char, radix: nat): Option<nat> {
    var v :=
      if '0' <= c <= '9' then c as int - '0' as int
      else if 'a' <= c <= 'z' then c as int - 'a' as int + 10
      else if 'A' <= c <= 'Z' then c as int - 'A' as int + 10
      else 36;
    if v < radix then Some(v) else None
  }

  /** The longest prefix of `s` made of digits of the radix, as values. */
  function LeadingDigits(s: string, radix: nat): seq<nat> {
    if s == [] || DigitValue(s[0], radix).None? then []
    else [DigitValue(s[0], radix).value] + LeadingDigits(s[1..], radix)
  }

  /** The number a digit sequence denotes, most significant digit first. */
  function ValueOf(ds: seq<nat>, radix: nat): nat {
    if ds == [] then 0 else ValueOf(ds[..|ds| - 1], radix) * radix + ds[|ds| - 1]
  }

  /** `parseInt(s)` without a radix: leading white space is skipped, then an
      optional sign, then a `0x`/`0X` prefix selects base 16, then as many
      digits as follow; None stands for NaN (no digit at all). */
  function ParseInt(s: string): Option<int> {
    var t := TrimStart(s);
    var negative := t != [] && t[0] == '-';
    var u := if t != [] && (t[0] == '-' || t[0] == '+') then t[1..] else t;
    var hex := |u| >= 2 && u[0] == '0' && (u[1] == 'x' || u[1] == 'X');
    var radix := if hex then 16 else 10;
    var ds := LeadingDigits(if hex then u[2..] else u, radix);
    var magnitude: int := ValueOf(ds, radix);
    if ds == [] then None
    else Some(if negative then -magnitude else magnitude)
  }

  /** A query parameter read as `parseInt(param) || fallback`: an absent
      parameter parses as NaN, and NaN and 0 are the falsy results. */
  function QueryInt(param: Option<string>, fallback: int): int {
    var parsed := if param.Some? then ParseInt(param.value) else None;
    if parsed.None? || parsed.value == 0 then fallback else parsed.value
  }

  function DigitChar(d: nat): char
    requires d < 10
  {
    ('0' as int + d) as char
  }

  /** The canonical decimal spelling of a natural number. */
  function Decimal(n: nat): string {
    if n < 10 then [DigitChar(n)] else Decimal(n / 10) + [DigitChar(n % 10)]
  }

  function DigitsOf(s: string, radix: nat): seq<nat>
    requires forall i :: 0 <= i < |s| ==> DigitValue(s[i], radix).Some?
  {
    seq(|s|, i requires 0 <= i < |s| => DigitValue(s[i], radix).value)
  }

  lemma {:induction false} DecimalIsDigits(n: nat)
    ensures Decimal(n) != []
    ensures forall i :: 0 <= i < |Decimal(n)| ==> '0' <= Decimal(n)[i] <= '9'
    ensures forall i :: 0 <= i < |Decimal(n)| ==> DigitValue(Decimal(n)[i], 10).Some?
  {
    if n >= 10 {
      DecimalIsDigits(n / 10);
    }
  }

  /** A string of digits is read to its end. */
  lemma {:induction false} LeadingAll(s: string, radix: nat)
    requires forall i :: 0 <= i < |s| ==> DigitValue(s[i], radix).Some?
    ensures LeadingDigits(s, radix) == DigitsOf(s, radix)
    decreases |s|
  {
    if s != [] {
      LeadingAll(s[1..], radix);
      assert DigitsOf(s, radix) == [DigitValue(s[0], radix).value] + DigitsOf(s[1..], radix);
    }
  }

  lemma {:induction false} DecimalValue(n: nat)
    ensures forall i :: 0 <= i < |Decimal(n)| ==> DigitValue(Decimal(n)[i], 10).Some?
    ensures ValueOf(DigitsOf(Decimal(n), 10), 10) == n
  {
    DecimalIsDigits(n);
    if n >= 10 {
      var a := Decimal(n / 10);
      DecimalValue(n / 10);
      var ds := DigitsOf(Decimal(n), 10);
      assert ds[..|ds| - 1] == DigitsOf(a, 10);
      assert ds[|ds| - 1] == n % 10;
    }
  }

  /** parseInt reads back the decimal spelling of every integer. */
  lemma {:induction false} ParseDecimal(n: nat)
    ensures ParseInt(Decimal(n)) == Some(n)
    ensures ParseInt("-" + Decimal(n)) == Some(-(n as int))
  {
    var d := Decimal(n);
    DecimalValue(n);
    LeadingAll(d, 10);
    assert TrimStart(d) == d;
    var m := "-" + d;
    assert TrimStart(m) == m;
    assert m[1..] == d;
  }

  /** Only NaN and 0 fall back; every other number, a negative one
      included, is used as given. */
  lemma QueryIntFallback(n: nat, fallback: int)
    ensures QueryInt(None, fallback) == fallback
    ensures QueryInt(Some(Decimal(0)), fallback) == fallback
    ensures QueryInt(Some("abc"), fallback) == fallback
    ensures n != 0 ==> QueryInt(Some(Decimal(n)), fallback) == n
    ensures n != 0 ==> QueryInt(Some("-" + Decimal(n)), fallback) == -(n as int)
  {
    ParseDecimal(n);
    ParseDecimal(0);
    assert ParseInt("abc") == None by {
      assert TrimStart("abc") == "abc";
      assert LeadingDigits("abc", 10) == [];
    }
  }

  /** With a non-zero fallback the value read is never 0. */
  lemma QueryIntNonZero(param: Option<string>, fallback: int)
    requires fallback != 0
    ensures QueryInt(param, fallback) != 0
  {}

  /** The number of records before the requested page. */
  function Skip(page: int, limit: int): int {
    (page - 1) * limit
  }

  function Abs(x: int): nat {
    if x < 0 then -x else x
  }

  /** `.skip(skip).limit(limit)` on an ordered result: a limit of 0 means no
      limit, and a negative one is taken by its magnitude (one batch). */
  function Window<T>(s: seq<T>, skip: nat, limit: int): (r: seq<T>)
    ensures |r| == if skip >= |s| then 0
                   else if limit == 0 || |s| - skip <= Abs(limit) then |s| - skip
                   else Abs(limit)
    ensures forall k :: 0 <= k < |r| ==> skip + k < |s| && r[k] == s[skip + k]
  {
    var rest := if skip <= |s| then s[skip..] else [];
    if limit == 0 || |rest| <= Abs(limit) then rest else rest[..Abs(limit)]
  }

  /** `Math.ceil(total / limit)` for a non-zero limit. */
  function CeilDiv(total: nat, limit: int): int
    requires limit != 0
  {
    if limit > 0 then (total + limit - 1) / limit else -(total / -limit)
  }

  /** CeilDiv is the least integer not below the quotient: for a positive
      limit, the least r with total <= r * limit; for a negative one, the
      least r with r * limit <= total. */
  lemma CeilDivSpec(total: nat, limit: int)
    requires limit != 0
    ensures var r := CeilDiv(total, limit);
      limit > 0 ==> (r - 1) * limit < total <= r * limit
    ensures var r := CeilDiv(total, limit);
      limit < 0 ==> r * limit <= total < (r - 1) * limit
  {
    var r := CeilDiv(total, limit);
    if limit > 0 {
      var q, m := (total + limit - 1) / limit, (total + limit - 1) % limit;
      assert total + limit - 1 == q * limit + m;
      assert (r - 1) * limit == r * limit - limit;
    } else {
      var n := -limit;
      var q, m := total / n, total % n;
      assert total == q * n + m;
      assert r * limit == q * n;
      assert (r - 1) * limit == q * n + n;
    }
  }

  /** No records means no pages, whatever the limit. */
  lemma CeilOfNothing(limit: int)
    requires limit != 0
    ensures CeilDiv(0, limit) == 0
  {}

  /** The order of the stored sequence: creation times never decrease. */
  predicate Chronological(users: seq<User>) {
    forall i, j :: 0 <= i < j < |users| ==> users[i].createdAt <= users[j].createdAt
  }

  function Reverse<T>(s: seq<T>): (r: seq<T>)
    ensures |r| == |s|
    ensures forall k :: 0 <= k < |s| ==> r[k] == s[|s| - 1 - k]
  {
    if s == [] then [] else Reverse(s[1..]) + [s[0]]
  }

  /** `sort({ createdAt: -1 })` over records kept in creation order; records
      created at the same instant come out newest-inserted first. */
  function NewestFirst(users: seq<User>): seq<User> {
    Reverse(users)
  }

  /** Descending order of creation time. */
  predicate Descending(users: seq<User>) {
    forall i, j :: 0 <= i < j < |users| ==> users[i].createdAt >= users[j].createdAt
  }

  /** Newest-first is sorted by descending creation time and holds the same
      records. */
  lemma NewestFirstSorted(users: seq<User>)
    requires Chronological(users)
    ensures Descending(NewestFirst(users))
    ensures multiset(NewestFirst(users)) == multiset(users)
  {
    var r := NewestFirst(users);
    forall i, j | 0 <= i < j < |users|
      ensures r[i].createdAt >= r[j].createdAt
    {
      assert r[i] == users[|users| - 1 - i] && r[j] == users[|users| - 1 - j];
    }
    ReverseMultiset(users);
  }

  /** A window of a sorted list is sorted. */
  lemma WindowDescending(s: seq<User>, skip: nat, limit: int)
    requires Descending(s)
    ensures Descending(Window(s, skip, limit))
  {
    var w := Window(s, skip, limit);
    forall i, j | 0 <= i < j < |w| ensures w[i].createdAt >= w[j].createdAt {
      assert w[i] == s[skip + i] && w[j] == s[skip + j];
    }
  }

  lemma {:induction false} ReverseMultiset<T>(s: seq<T>)
    ensures multiset(Reverse(s)) == multiset(s)
  {
    if s != [] {
      ReverseMultiset(s[1..]);
      assert s == [s[0]] + s[1..];
    }
  }

  /** The search of `getUsers`: an empty search matches everything; any
      other matches a record whose first name, last name or email contains it,
      ignoring case. */
  predicate Matches(u: User, search: string) {
    var q := Lower(search);
    search == ""
    || Contains(Lower(u.firstName), q)
    || Contains(Lower(u.lastName), q)
    || Contains(Lower(u.email), q)
  }

  /** The matching records, in their original order. */
  function Filter(users: seq<User>, search: string): (r: seq<User>)
    ensures |r| <= |users|
    ensures forall u :: u in r <==> u in users && Matches(u, search)
  {
    if users == [] then []
    else (if Matches(users[0], search) then [users[0]] else []) + Filter(users[1..], search)
  }

  /** The empty search keeps every record. */
  lemma {:induction false} EmptySearchKeepsAll(users: seq<User>)
    ensures Filter(users, "") == users
  {
    if users != [] {
      EmptySearchKeepsAll(users[1..]);
    }
  }

  /** Searches that differ only in the case of ASCII letters select the same
      records. */
  lemma SearchIgnoresCase(u: User, s: string, t: string)
    requires Lower(s) == Lower(t)
    ensures Matches(u, s) <==> Matches(u, t)
  {
    assert |s| == |Lower(s)| == |Lower(t)| == |t|;
  }

  lemma {:induction false} FilterAppend(a: seq<User>, b: seq<User>, search: string)
    ensures Filter(a + b, search) == Filter(a, search) + Filter(b, search)
  {
    if a == [] {
      assert a + b == b;
    } else {
      assert (a + b)[1..] == a[1..] + b;
      FilterAppend(a[1..], b, search);
    }
  }

  lemma {:induction false} ReverseAppend<T>(a: seq<T>, b: seq<T>)
    ensures Reverse(a + b) == Reverse(b) + Reverse(a)
  {
    var l, r := Reverse(a + b), Reverse(b) + Reverse(a);
    assert |l| == |r|;
    forall k | 0 <= k < |l| ensures l[k] == r[k] {
      if k < |b| {
        assert l[k] == (a + b)[|a| + |b| - 1 - k] == b[|b| - 1 - k];
      } else {
        assert l[k] == (a + b)[|a| + |b| - 1 - k] == a[|a| - 1 - (k - |b|)];
      }
    }
  }

  /** Filtering and reversing commute: the filtered newest-first list is the
      newest-first order of the filtered records. */
  lemma {:induction false} FilterReverse(users: seq<User>, search: string)
    ensures Filter(Reverse(users), search) == Reverse(Filter(users, search))
  {
    if users != [] {
      var head := if Matches(users[0], search) then [users[0]] else [];
      FilterReverse(users[1..], search);
      assert Reverse(users) == Reverse(users[1..]) + [users[0]];
      FilterAppend(Reverse(users[1..]), [users[0]], search);
      assert Filter([users[0]], search) == head;
      ReverseAppend(head, Filter(users[1..], search));
      assert Reverse(head) == head;
    }
  }
}
