/** The display order of a snapshot:
      ORDER BY clase DESC, CAST(SUBSTRING(id, 2) AS UNSIGNED)
    and the insertion that keeps a list of seats in that order. */
module Ordering {
  import opened Seats

  /** Lexicographic "strictly less than" on strings, by character code. */
  predicate StrLess(a: string, b: string) {
    if a == [] then b != []
    else if b == [] then false
    else a[0] < b[0] || (a[0] == b[0] && StrLess(a[1..], b[1..]))
  }

  lemma {:induction false} StrLessIrreflexive(a: string)
    ensures !StrLess(a, a)
  {
    if a != [] {
      StrLessIrreflexive(a[1..]);
    }
  }

  lemma {:induction false} StrLessTransitive(a: string, b: string, c: string)
    requires StrLess(a, b) && StrLess(b, c)
    ensures StrLess(a, c)
  {
    if a != [] && b != [] && c != [] && a[0] == b[0] == c[0] {
      StrLessTransitive(a[1..], b[1..], c[1..]);
    }
  }

  /** Two different strings are always ordered one way or the other. */
  lemma {:induction false} StrLessTotal(a: string, b: string)
    requires a != b
    ensures StrLess(a, b) || StrLess(b, a)
  {
    if a != [] && b != [] && a[0] == b[0] {
      assert a == [a[0]] + a[1..] && b == [b[0]] + b[1..];
      StrLessTotal(a[1..], b[1..]);
    }
  }

  predicate IsDigit(c: char) {
    '0' <= c <= '9'
  }

  /** The value of the leading run of decimal digits of `s`, read on top of
      `acc`; the first non-digit ends the number. */
  function LeadingNumber(s: string, acc: nat): (n: nat) {
    if s == [] || !IsDigit(s[0]) then acc
    else LeadingNumber(s[1..], acc * 10 + (s[0] - '0') as int)
  }

  /** `CAST(SUBSTRING(id, 2) AS UNSIGNED)`: the number written after the
      first character of the id, or 0 when no digit follows it. */
  function IdNumber(id: string): (n: nat) {
    if id == [] then 0 else LeadingNumber(id[1..], 0)
  }

  /** The decimal numeral of `n`, without leading zeros. */
  function Decimal(n: nat): (s: string)
    ensures |s| >= 1
    ensures forall i :: 0 <= i < |s| ==> IsDigit(s[i])
  {
    var d := ('0' as int + n % 10) as char;
    if n < 10 then [d] else Decimal(n / 10) + [d]
  }

  /** Reading a run of digits and then the rest is reading the rest on top
      of the value of the run. */
  lemma {:induction false} LeadingNumberAppend(digits: string, rest: string, acc: nat)
    requires forall i :: 0 <= i < |digits| ==> IsDigit(digits[i])
    ensures LeadingNumber(digits + rest, acc) == LeadingNumber(rest, LeadingNumber(digits, acc))
  {
    if digits == [] {
      assert digits + rest == rest;
    } else {
      assert (digits + rest)[0] == digits[0] && IsDigit(digits[0]);
      assert (digits + rest)[1..] == digits[1..] + rest;
      LeadingNumberAppend(digits[1..], rest, acc * 10 + (digits[0] - '0') as int);
    }
  }

  /** Reading back the numeral of `n` gives `n`. */
  lemma {:induction false} LeadingNumberDecimal(n: nat)
    ensures LeadingNumber(Decimal(n), 0) == n
  {
    var d := ('0' as int + n % 10) as char;
    if n >= 10 {
      LeadingNumberDecimal(n / 10);
      LeadingNumberAppend(Decimal(n / 10), [d], 0);
    }
  }

  /** The id number of any id made of one leading character, the numeral of
      `n`, and a tail that does not continue the numeral, is `n`. */
  lemma {:induction false} IdNumberOfNumeral(c: char, n: nat, rest: string)
    requires rest == [] || !IsDigit(rest[0])
    ensures IdNumber([c] + Decimal(n) + rest) == n
  {
    assert ([c] + Decimal(n) + rest)[1..] == Decimal(n) + rest;
    LeadingNumberAppend(Decimal(n), rest, 0);
    LeadingNumberDecimal(n);
  }

  /** `a` may be listed before `b`: a greater class first, and within one
      class the smaller id number first. */
  predicate InOrder(a: Seat, b: Seat) {
    StrLess(b.clase, a.clase) || (a.clase == b.clase && IdNumber(a.id) <= IdNumber(b.id))
  }

  /** Id numbers compare as numbers, not as text, and the class is
      compared first: A2 precedes A10, and any 'primera' seat precedes a
      seat of class 'economica'. */
  lemma NumericIdOrder()
    ensures IdNumber("A2") == 2 && IdNumber("A10") == 10
    ensures InOrder(Seat("A2", "primera", Libre), Seat("A10", "primera", Libre))
    ensures !InOrder(Seat("A10", "primera", Libre), Seat("A2", "primera", Libre))
    ensures InOrder(Seat("B12", "primera", Libre), Seat("A1", "economica", Libre))
  {
    assert "A10"[1..] == "10" && "10"[1..] == "0";
  }

  lemma InOrderTotal(a: Seat, b: Seat)
    ensures InOrder(a, b) || InOrder(b, a)
  {
    if a.clase != b.clase {
      StrLessTotal(a.clase, b.clase);
    }
  }

  lemma InOrderTransitive(a: Seat, b: Seat, c: Seat)
    requires InOrder(a, b) && InOrder(b, c)
    ensures InOrder(a, c)
  {
    if StrLess(b.clase, a.clase) && StrLess(c.clase, b.clase) {
      StrLessTransitive(c.clase, b.clase, a.clase);
    }
  }

  predicate Sorted(s: seq<Seat>) {
    forall i, j :: 0 <= i < j < |s| ==> InOrder(s[i], s[j])
  }

  predicate DistinctIds(s: seq<Seat>) {
    forall i, j :: 0 <= i < j < |s| ==> s[i].id != s[j].id
  }

  /** Puts `x` into the list `s` in front of the first seat it may precede. */
  function Insert(s: seq<Seat>, x: Seat): (r: seq<Seat>)
    ensures multiset(r) == multiset(s) + multiset{x}
  {
    if s == [] then [x]
    else if InOrder(x, s[0]) then [x] + s
    else
      assert s == [s[0]] + s[1..];
      [s[0]] + Insert(s[1..], x)
  }

  lemma InsertMembers(s: seq<Seat>, x: Seat)
    ensures |Insert(s, x)| == |s| + 1
    ensures forall y :: y in Insert(s, x) <==> y in s || y == x
  {
    var r := Insert(s, x);
    assert |multiset(r)| == |multiset(s)| + 1;
    forall y ensures y in r <==> y in s || y == x {
      assert y in r <==> y in multiset(r);
      assert y in s <==> y in multiset(s);
    }
  }

  /** Insertion keeps a sorted list sorted. */
  lemma {:induction false} InsertSorted(s: seq<Seat>, x: Seat)
    requires Sorted(s)
    ensures Sorted(Insert(s, x))
  {
    if s == [] {
    } else if InOrder(x, s[0]) {
      forall j | 0 <= j < |s| ensures InOrder(x, s[j]) {
        if j > 0 { InOrderTransitive(x, s[0], s[j]); }
      }
    } else {
      InOrderTotal(x, s[0]);
      var rest := Insert(s[1..], x);
      InsertSorted(s[1..], x);
      InsertMembers(s[1..], x);
      forall k | 0 <= k < |rest| ensures InOrder(s[0], rest[k]) {
        if rest[k] != x {
          assert rest[k] in s[1..];
          var j :| 0 <= j < |s[1..]| && s[1..][j] == rest[k];
          assert s[j + 1] == rest[k];
        }
      }
    }
  }

  /** Inserting a seat whose id is new keeps the ids distinct. */
  lemma {:induction false} InsertDistinct(s: seq<Seat>, x: Seat)
    requires DistinctIds(s)
    requires forall y :: y in s ==> y.id != x.id
    ensures DistinctIds(Insert(s, x))
  {
    if s != [] && !InOrder(x, s[0]) {
      var rest := Insert(s[1..], x);
      assert forall y :: y in s[1..] ==> y in s;
      forall j, k | 0 <= j < k < |s[1..]| ensures s[1..][j].id != s[1..][k].id {
        assert s[1..][j] == s[j + 1] && s[1..][k] == s[k + 1];
      }
      InsertDistinct(s[1..], x);
      InsertMembers(s[1..], x);
      forall k | 0 <= k < |rest| ensures s[0].id != rest[k].id {
        if rest[k] != x {
          assert rest[k] in s[1..];
          var j :| 0 <= j < |s[1..]| && s[1..][j] == rest[k];
          assert s[j + 1] == rest[k];
        }
      }
    }
  }
}
