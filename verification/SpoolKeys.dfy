/** The names of spooled data files: service_nanoUnixTs. */
module SpoolKeys {
  import opened Words
  import opened Text

  /** strings.Split(s, "_"). */
  function Split(s: string): (parts: seq<string>)
    ensures |parts| > 0
  {
    if s == "" then [""]
    else
      var rest := Split(s[1..]);
      if s[0] == '_' then [""] + rest else [[s[0]] + rest[0]] + rest[1..]
  }

  /** strconv.ParseInt(s, 10, 64). */
  function ParseInt(s: string): Option<Int64> {
    var signed := s != "" && (s[0] == '-' || s[0] == '+');
    var digits := if signed then s[1..] else s;
    if digits == "" || !AllDigits(digits) then None
    else
      var n := if s[0] == '-' then -(Value(digits) as int) else Value(digits);
      if I64_MIN <= n <= I64_MAX then Some(n) else None
  }

  function PrintInt(n: Int64): string {
    if n < 0 then "-" + Decimal(-(n as int)) else Decimal(n)
  }

  function Key(service: string, ts: Int64): string {
    service + "_" + PrintInt(ts)
  }

  /** The timestamp in a file name, if the name is valid. */
  function Timestamp(key: string): Option<Int64> {
    var parts := Split(key);
    if |parts| != 2 then None else ParseInt(parts[1])
  }

  lemma {:induction false} SplitWhole(s: string)
    ensures '_' !in s ==> Split(s) == [s]
    ensures '_' in s ==> |Split(s)| > 1
  {
    if s != "" {
      SplitWhole(s[1..]);
      assert s == [s[0]] + s[1..];
    }
  }

  lemma Reassociate(u: seq<string>, v: seq<string>, w: seq<string>)
    ensures u + (v + w) == u + v + w
  {
  }

  lemma HeadOfConcat(x: seq<string>, y: seq<string>)
    requires |x| > 0
    ensures (x + y)[0] == x[0] && (x + y)[1..] == x[1..] + y
  {
  }

  lemma TailOfKey(a: string, b: string)
    requires a != ""
    ensures (a + "_" + b)[0] == a[0] && (a + "_" + b)[1..] == a[1..] + "_" + b
  {
  }

  lemma {:induction false} SplitConcat(a: string, b: string)
    ensures Split(a + "_" + b) == Split(a) + Split(b)
  {
    if a == "" {
      assert a + "_" + b == "_" + b && ("_" + b)[1..] == b;
    } else {
      var x, y := Split(a[1..]), Split(b);
      SplitConcat(a[1..], b);
      TailOfKey(a, b);
      if a[0] == '_' {
        Reassociate([""], x, y);
      } else {
        HeadOfConcat(x, y);
        Reassociate([[a[0]] + x[0]], x[1..], y);
      }
    }
  }

  lemma ParsePrinted(n: Int64)
    ensures ParseInt(PrintInt(n)) == Some(n) && '_' !in PrintInt(n)
  {
    var digits := Decimal(if n < 0 then -(n as int) else n);
    DecimalRoundTrip(if n < 0 then -(n as int) else n);
    assert digits[0] != '-' && digits[0] != '+' by { assert IsDigit(digits[0]); }
    if n < 0 {
      assert PrintInt(n)[0] == '-' && PrintInt(n)[1..] == digits;
    }
  }

  /** Printing a key and parsing its timestamp is the identity on every int64
      timestamp exactly for the services whose name has no underscore. */
  lemma KeyRoundTrip(service: string, ts: Int64)
    ensures Timestamp(Key(service, ts)) == (if '_' !in service then Some(ts) else None)
  {
    ParsePrinted(ts);
    SplitWhole(PrintInt(ts));
    SplitWhole(service);
    SplitConcat(service, PrintInt(ts));
  }

  lemma {:induction false} SplitTwo(s: string)
    ensures |Split(s)| == 1 ==> '_' !in s && Split(s) == [s]
    ensures |Split(s)| == 2 ==>
      s == Split(s)[0] + "_" + Split(s)[1] && '_' !in Split(s)[0] && '_' !in Split(s)[1]
  {
    if s != "" {
      SplitTwo(s[1..]);
      assert s == [s[0]] + s[1..];
      var rest := Split(s[1..]);
      if s[0] != '_' && |rest| == 2 {
        assert [s[0]] + (rest[0] + "_" + rest[1]) == [s[0]] + rest[0] + "_" + rest[1];
      }
    }
  }

  /** The text is an optional sign and digits, and stands for n. */
  ghost predicate Denotes(s: string, n: int) {
    || (s != "" && AllDigits(s) && Value(s) == n)
    || (|s| > 1 && s[0] == '+' && AllDigits(s[1..]) && Value(s[1..]) == n)
    || (|s| > 1 && s[0] == '-' && AllDigits(s[1..]) && -(Value(s[1..]) as int) == n)
  }

  /** Which names are valid: a service and a number that fits 64 bits, with the only
      underscore between them. */
  lemma TimestampIff(key: string, n: int)
    ensures (Timestamp(key).Some? && Timestamp(key).value == n) <==>
      I64_MIN <= n <= I64_MAX &&
      exists a, b :: key == a + "_" + b && '_' !in a && '_' !in b && Denotes(b, n)
  {
    SplitTwo(key);
    if |Split(key)| == 2 {
      ParseIntIff(Split(key)[1], n);
    }
    if a, b :| key == a + "_" + b && '_' !in a && '_' !in b && Denotes(b, n) {
      SplitConcat(a, b);
      SplitWhole(a);
      SplitWhole(b);
      ParseIntIff(b, n);
    }
  }

  lemma ParseIntIff(s: string, n: int)
    ensures (ParseInt(s).Some? && ParseInt(s).value == n) <==> I64_MIN <= n <= I64_MAX && Denotes(s, n)
  {
    if s != "" {
      assert AllDigits(s) ==> IsDigit(s[0]);
    }
  }

  /** Keys of one service with non-negative timestamps of one width are in time order. */
  lemma KeyOrder(service: string, t: Int64, u: Int64)
    requires 0 <= t && 0 <= u && |PrintInt(t)| == |PrintInt(u)|
    ensures Less(Key(service, t), Key(service, u)) <==> t < u
  {
    DecimalRoundTrip(t);
    DecimalRoundTrip(u);
    DecimalOrder(Decimal(t), Decimal(u));
    LessPrefix(service + "_", Decimal(t), Decimal(u));
  }

  /** Files of different services are ordered by service, whatever their age, in the
      order of the names with their underscore. */
  lemma ServiceOrder(a: string, b: string, t: Int64, u: Int64)
    requires '_' !in a && '_' !in b && a != b
    ensures Less(Key(a, t), Key(b, u)) <==> Less(a + "_", b + "_")
  {
    NoPrefix(a, b);
    NoPrefix(b, a);
    LessTotal(a + "_", b + "_");
    LessTotal(Key(a, t), Key(b, u));
    if Less(a + "_", b + "_") {
      LessExtended(a + "_", b + "_", PrintInt(t), PrintInt(u));
    } else {
      LessExtended(b + "_", a + "_", PrintInt(u), PrintInt(t));
    }
  }

  lemma NoPrefix(a: string, b: string)
    requires '_' !in b && a != b
    ensures !(a + "_" <= b + "_") && a + "_" != b + "_"
  {
    var x, y := a + "_", b + "_";
    assert x[|a|] == '_' && x[..|a|] == a && y[..|b|] == b;
    assert |a| < |b| ==> y[|a|] == b[|a|];
  }

  /** That is the order of the names if neither is a prefix of the other. */
  lemma ServiceOrderOfNames(a: string, b: string, t: Int64, u: Int64)
    requires Less(a, b) && !(a <= b)
    ensures Less(Key(a, t), Key(b, u))
  {
    LessExtended(a, b, "_" + PrintInt(t), "_" + PrintInt(u));
    assert Key(a, t) == a + ("_" + PrintInt(t)) && Key(b, u) == b + ("_" + PrintInt(u));
  }

  /** The first difference decides, whatever follows. */
  lemma {:induction false} LessExtended(a: string, b: string, x: string, y: string)
    requires Less(a, b) && !(a <= b)
    ensures Less(a + x, b + y)
  {
    assert a != "";
    if a[0] == b[0] {
      assert a[1..] <= b[1..] ==> a <= b by {
        assert a == [a[0]] + a[1..] && b == [b[0]] + b[1..];
      }
      LessExtended(a[1..], b[1..], x, y);
      assert (a + x)[1..] == a[1..] + x && (b + y)[1..] == b[1..] + y;
    }
  }
}
