/** Strings as Go orders them, sorted directory listings, and decimal numbers. */
module Text {
  // ----- the order of strings ----------------------------------------------------

  predicate Less(a: string, b: string) {
    if b == "" then false
    else if a == "" then true
    else a[0] < b[0] || (a[0] == b[0] && Less(a[1..], b[1..]))
  }

  lemma {:induction false} LessTotal(a: string, b: string)
    ensures Less(a, b) || a == b || Less(b, a)
    ensures !(Less(a, b) && (a == b || Less(b, a)))
  {
    if a != "" && b != "" {
      LessTotal(a[1..], b[1..]);
      if a[0] == b[0] && a[1..] == b[1..] {
        assert a == [a[0]] + a[1..] == b;
      }
    }
  }

  lemma {:induction false} LessTransitive(a: string, b: string, c: string)
    requires Less(a, b) && Less(b, c)
    ensures Less(a, c)
  {
    if a != "" && a[0] == b[0] == c[0] {
      LessTransitive(a[1..], b[1..], c[1..]);
    }
  }

  lemma {:induction false} LessPrefix(p: string, a: string, b: string)
    ensures Less(p + a, p + b) <==> Less(a, b)
  {
    if p == "" {
      assert p + a == a && p + b == b;
    } else {
      LessPrefix(p[1..], a, b);
      assert (p + a)[1..] == p[1..] + a && (p + b)[1..] == p[1..] + b;
    }
  }

  // ----- sorted listings ------------------------------------------------------------

  ghost predicate Ascending(s: seq<string>) {
    forall i, j :: 0 <= i < j < |s| ==> Less(s[i], s[j])
  }

  /** `s` lists the names once each, in order. */
  ghost predicate Lists(s: seq<string>, names: set<string>) {
    Ascending(s) && (forall i :: 0 <= i < |s| ==> s[i] in names) && (forall x :: x in names ==> x in s)
  }

  lemma {:induction false} ListingUnique(a: seq<string>, b: seq<string>, names: set<string>)
    requires Lists(a, names) && Lists(b, names)
    ensures a == b
    decreases |a|
  {
    if a != [] {
      assert a[0] in names && a[0] in b;
      assert b[0] in names && b[0] in a;
      var i :| 0 <= i < |b| && b[i] == a[0];
      var j :| 0 <= j < |a| && a[j] == b[0];
      LessTotal(a[0], b[0]);
      ListingTail(a, names);
      ListingTail(b, names);
      ListingUnique(a[1..], b[1..], names - {a[0]});
      assert a == [a[0]] + a[1..] && b == [b[0]] + b[1..];
    }
  }

  lemma ListingTail(s: seq<string>, names: set<string>)
    requires Lists(s, names) && s != []
    ensures Lists(s[1..], names - {s[0]})
  {
    forall x | x in names - {s[0]} ensures x in s[1..] {
      assert x in s;
      var i :| 0 <= i < |s| && s[i] == x;
      assert s[1..][i - 1] == x;
    }
    forall i | 0 <= i < |s[1..]| ensures s[1..][i] in names - {s[0]} {
      LessTotal(s[0], s[i + 1]);
    }
  }

  lemma {:induction false} ListingSize(s: seq<string>, names: set<string>)
    requires Lists(s, names)
    ensures |s| == |names|
    decreases |s|
  {
    if s == [] {
      assert names == {};
    } else {
      ListingTail(s, names);
      assert s[0] in names;
      ListingSize(s[1..], names - {s[0]});
    }
  }

  lemma {:induction false} SmallestExists(names: set<string>) returns (m: string)
    requires names != {}
    ensures m in names && forall x :: x in names ==> x == m || Less(m, x)
    decreases |names|
  {
    m :| m in names;
    if names != {m} {
      var k := SmallestExists(names - {m});
      LessTotal(k, m);
      if Less(k, m) {
        m := k;
      } else {
        forall x | x in names ensures x == m || Less(m, x) {
          if x != m && x != k { LessTransitive(m, k, x); }
        }
      }
    }
  }

  lemma {:induction false} ListingExists(names: set<string>) returns (s: seq<string>)
    ensures Lists(s, names)
    decreases |names|
  {
    if names == {} {
      s := [];
    } else {
      var m := SmallestExists(names);
      var rest := ListingExists(names - {m});
      s := [m] + rest;
      forall x | x in names ensures x in s {
        if x == m { assert s[0] == x; } else { assert x in rest; }
      }
    }
  }

  /** The names in order. */
  ghost function Listing(names: set<string>): (s: seq<string>)
    ensures Lists(s, names)
  {
    assert exists s :: Lists(s, names) by { var s := ListingExists(names); }
    var s :| Lists(s, names);
    s
  }

  /** The smallest name of a non-empty set. */
  method Smallest(names: set<string>) returns (m: string)
    requires names != {}
    ensures m in names && forall x :: x in names ==> x == m || Less(m, x)
  {
    m :| m in names;
    var todo := names - {m};
    while todo != {}
      invariant todo <= names && m in names && m !in todo
      invariant forall x :: x in names && x !in todo ==> x == m || Less(m, x)
    {
      var k :| k in todo;
      LessTotal(k, m);
      if Less(k, m) {
        forall x | x in names && x !in todo ensures Less(k, x) {
          if x != m { LessTransitive(k, m, x); }
        }
        m := k;
      }
      todo := todo - {k};
    }
  }

  /** A directory walk and sort.Strings both give the names in order. */
  method SortedNames(names: set<string>) returns (s: seq<string>)
    ensures Lists(s, names) && s == Listing(names)
  {
    s := [];
    var todo := names;
    while todo != {}
      invariant todo <= names && Lists(s, names - todo)
      invariant forall x, y :: x in names - todo && y in todo ==> Less(x, y)
    {
      var m := Smallest(todo);
      forall x | x in names - (todo - {m}) ensures x in s + [m] {
        if x == m { assert (s + [m])[|s|] == m; } else { assert x in s; }
      }
      s := s + [m];
      todo := todo - {m};
    }
    assert names - todo == names;
    ListingUnique(s, Listing(names), names);
  }

  // ----- decimal numbers ----------------------------------------------------------------

  predicate IsDigit(c: char) { '0' <= c <= '9' }

  predicate AllDigits(s: string) {
    forall i :: 0 <= i < |s| ==> IsDigit(s[i])
  }

  function Digit(c: char): nat
    requires IsDigit(c)
  {
    c as int - '0' as int
  }

  /** How %d prints a non-negative number. */
  function Decimal(n: nat): (s: string)
    ensures s != ""
  {
    var last := [(n % 10 + '0' as int) as char];
    if n < 10 then last else Decimal(n / 10) + last
  }

  function Value(s: string): nat
    requires AllDigits(s)
  {
    if s == "" then 0 else
      10 * Value(s[..|s| - 1]) + Digit(s[|s| - 1])
  }

  lemma {:induction false} DecimalRoundTrip(n: nat)
    ensures AllDigits(Decimal(n)) && Value(Decimal(n)) == n
  {
    var s := Decimal(n);
    if n < 10 {
      assert Value(s) == 10 * Value(s[..0]) + Digit(s[0]);
    } else {
      DecimalRoundTrip(n / 10);
      assert s[..|s| - 1] == Decimal(n / 10);
    }
  }

  /** On strings of one length, what precedes the last character decides first. */
  lemma {:induction false} LessLast(a: string, b: string)
    requires |a| == |b| > 0
    ensures var n := |a| - 1;
      Less(a, b) <==> Less(a[..n], b[..n]) || (a[..n] == b[..n] && a[n] < b[n])
  {
    var n := |a| - 1;
    if n > 0 {
      LessLast(a[1..], b[1..]);
      assert a[1..][..n - 1] == a[..n][1..] && b[1..][..n - 1] == b[..n][1..];
      if a[0] == b[0] && a[..n][1..] == b[..n][1..] {
        assert a[..n] == [a[0]] + a[..n][1..] == b[..n];
      }
    }
  }

  /** Equal-width decimals sort as strings in numeric order. */
  lemma {:induction false} DecimalOrder(a: string, b: string)
    requires |a| == |b| && AllDigits(a) && AllDigits(b)
    ensures Less(a, b) <==> Value(a) < Value(b)
    ensures a == b <==> Value(a) == Value(b)
  {
    if a != "" {
      var n := |a| - 1;
      DecimalOrder(a[..n], b[..n]);
      LessLast(a, b);
      LessTotal(a[..n], b[..n]);
      assert a == a[..n] + [a[n]] && b == b[..n] + [b[n]];
    }
  }
}
