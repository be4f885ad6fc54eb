/** The parts of Go's `strings` and `strconv` packages that cozytempl relies on, over `seq<char>`. */
module Text {

  datatype Option<+T> = None | Some(value: T)

  // ---- sequences ----------------------------------------------------------------

  lemma Regroup<T>(a: seq<T>, b: seq<T>)
    requires b != []
    ensures a + b == (a + b[..|b| - 1]) + [b[|b| - 1]]
  {
  }

  lemma Assoc<T>(a: seq<T>, b: seq<T>, c: seq<T>)
    ensures (a + b) + c == a + (b + c)
  {
  }

  // ---- splitting and joining -------------------------------------------------

  /** Go's strings.Split(s, sep) for a one-character separator: never empty, and "" gives [""]. */
  function Split(s: string, sep: char): (parts: seq<string>)
    ensures |parts| > 0
    ensures forall i | 0 <= i < |parts| :: sep !in parts[i]
  {
    if s == [] then [""]
    else
      var rest := Split(s[1..], sep);
      if s[0] == sep then [""] + rest else [[s[0]] + rest[0]] + rest[1..]
  }

  function Join(parts: seq<string>, sep: char): string
    requires |parts| > 0
  {
    if |parts| == 1 then parts[0] else parts[0] + [sep] + Join(parts[1..], sep)
  }

  lemma JoinAfterSeparator(rest: seq<string>, sep: char)
    requires |rest| > 0
    ensures Join([""] + rest, sep) == [sep] + Join(rest, sep)
  {
    assert ([""] + rest)[1..] == rest;
    assert "" + [sep] == [sep];
  }

  lemma JoinAfterChar(c: char, rest: seq<string>, sep: char)
    requires |rest| > 0
    ensures Join([[c] + rest[0]] + rest[1..], sep) == [c] + Join(rest, sep)
  {
    var parts := [[c] + rest[0]] + rest[1..];
    assert parts[1..] == rest[1..];
    if |rest| > 1 {
      Assoc([c], rest[0], [sep]);
      Assoc([c], rest[0] + [sep], Join(rest[1..], sep));
    }
  }

  lemma {:induction false} JoinSplit(s: string, sep: char)
    ensures Join(Split(s, sep), sep) == s
  {
    if s != [] {
      JoinSplit(s[1..], sep);
      var rest := Split(s[1..], sep);
      if s[0] == sep { JoinAfterSeparator(rest, sep); } else { JoinAfterChar(s[0], rest, sep); }
    }
  }

  /** Splitting distributes over a separator: the segments of the two halves are simply concatenated. */
  lemma {:induction false} SplitConcat(a: string, sep: char, b: string)
    ensures Split(a + [sep] + b, sep) == Split(a, sep) + Split(b, sep)
  {
    if a == [] {
      assert a + [sep] + b == [sep] + b;
      SplitCons(sep, b, sep);
    } else {
      var rest := a[1..] + [sep] + b;
      SplitConcat(a[1..], sep, b);
      assert a + [sep] + b == [a[0]] + rest;
      SplitCons(a[0], rest, sep);
    }
  }

  lemma SplitCons(c: char, s: string, sep: char)
    ensures Split([c] + s, sep) ==
            if c == sep then [""] + Split(s, sep) else [[c] + Split(s, sep)[0]] + Split(s, sep)[1..]
  {
    assert ([c] + s)[1..] == s;
  }

  lemma {:induction false} SplitSegment(a: string, sep: char)
    requires sep !in a
    ensures Split(a, sep) == [a]
  {
    if a != [] {
      SplitSegment(a[1..], sep);
      assert [a[0]] + a[1..] == a;
    }
  }

  lemma {:induction false} SplitJoin(parts: seq<string>, sep: char)
    requires |parts| > 0
    requires forall i | 0 <= i < |parts| :: sep !in parts[i]
    ensures Split(Join(parts, sep), sep) == parts
  {
    SplitSegment(parts[0], sep);
    if |parts| > 1 {
      SplitJoin(parts[1..], sep);
      SplitConcat(parts[0], sep, Join(parts[1..], sep));
      assert parts == [parts[0]] + parts[1..];
    } else {
      assert parts == [parts[0]];
    }
  }

  lemma {:induction false} JoinConcat(a: seq<string>, b: seq<string>, sep: char)
    requires |a| > 0 && |b| > 0
    ensures Join(a + b, sep) == Join(a, sep) + [sep] + Join(b, sep)
  {
    if |a| == 1 {
      assert (a + b)[1..] == b;
    } else {
      JoinConcat(a[1..], b, sep);
      assert (a + b)[1..] == a[1..] + b;
    }
  }

  // ---- decimal integers --------------------------------------------------------

  const MAX_INT64 := 0x7fff_ffff_ffff_ffff

  predicate IsDigit(c: char) { '0' <= c <= '9' }

  predicate AllDigits(s: string) { forall i | 0 <= i < |s| :: IsDigit(s[i]) }

  function DigitValue(c: char): int
    requires IsDigit(c)
  {
    c as int - '0' as int
  }

  function DecimalValue(s: string): (n: nat)
    requires AllDigits(s)
  {
    if s == [] then 0 else DecimalValue(s[..|s| - 1]) * 10 + DigitValue(s[|s| - 1])
  }

  /** Go's strconv.ParseInt(s, 10, 64); None stands for either of its errors. */
  function ParseInt(s: string): Option<int> {
    var negative := s != [] && s[0] == '-';
    var digits := if s != [] && (s[0] == '-' || s[0] == '+') then s[1..] else s;
    if digits == [] || !AllDigits(digits) then None
    else
      var magnitude: int := DecimalValue(digits);
      if !negative && magnitude > MAX_INT64 then None
      else if negative && magnitude > MAX_INT64 + 1 then None
      else Some(if negative then -magnitude else magnitude)
  }

  /** Go's %d for a non-negative number. */
  function FormatNat(n: nat): (s: string)
    ensures |s| > 0 && AllDigits(s)
  {
    var last := ['0' + (n % 10) as char];
    if n < 10 then last else FormatNat(n / 10) + last
  }

  lemma {:induction false} DecimalOfFormat(n: nat)
    ensures DecimalValue(FormatNat(n)) == n
  {
    var s := FormatNat(n);
    assert DigitValue('0' + (n % 10) as char) == n % 10;
    if n < 10 {
      assert s[..|s| - 1] == [];
    } else {
      DecimalOfFormat(n / 10);
      assert s[..|s| - 1] == FormatNat(n / 10);
    }
  }

  lemma ParseFormat(n: nat)
    ensures ParseInt(FormatNat(n)) == if n <= 9223372036854775807 then Some(n) else None
  {
    DecimalOfFormat(n);
    assert IsDigit(FormatNat(n)[0]);
  }

  lemma ParseNegative(n: nat)
    ensures ParseInt("-" + FormatNat(n)) == if n <= 9223372036854775808 then Some(0 - n) else None
  {
    DecimalOfFormat(n);
    assert ("-" + FormatNat(n))[1..] == FormatNat(n);
  }

  lemma ParsePositive(n: nat)
    ensures ParseInt("+" + FormatNat(n)) == if n <= 9223372036854775807 then Some(n) else None
  {
    DecimalOfFormat(n);
    assert ("+" + FormatNat(n))[1..] == FormatNat(n);
  }

  /** What parses is digits after at most one sign, and fits 64 bits. */
  lemma ParsedIsNumber(s: string)
    ensures ParseInt(s).Some? ==>
              && -9223372036854775808 <= ParseInt(s).value <= 9223372036854775807
              && s != [] && forall i | 0 <= i < |s| :: '0' <= s[i] <= '9' || (i == 0 && |s| > 1 && s[0] in "+-")
  {
    var digits := if s != [] && (s[0] == '-' || s[0] == '+') then s[1..] else s;
    if ParseInt(s).Some? {
      forall i | 0 <= i < |s| ensures '0' <= s[i] <= '9' || (i == 0 && |s| > 1 && s[0] in "+-") {
        if digits == s { assert IsDigit(digits[i]); } else if i > 0 { assert IsDigit(digits[i - 1]); }
      }
    }
  }

  // ---- ordering ----------------------------------------------------------------

  /** Go's `<` on strings. */
  predicate StringLess(a: string, b: string) {
    b != [] && (a == [] || a[0] < b[0] || (a[0] == b[0] && StringLess(a[1..], b[1..])))
  }

  /** The strings part at position i: there a has the smaller character, or ends while b goes on. */
  predicate PartAt(a: string, b: string, i: nat) {
    && i <= |a| && i < |b| && a[..i] == b[..i]
    && (i == |a| || a[i] < b[i])
  }

  lemma PartLater(a: string, b: string, i: nat)
    requires PartAt(a, b, i) && i > 0
    ensures a != [] && b != [] && a[0] == b[0]
  {
    assert a[..i][0] == b[..i][0];
  }

  lemma {:induction false} StringLessIff(a: string, b: string)
    ensures StringLess(a, b) <==> exists i: nat :: PartAt(a, b, i)
  {
    forall i: nat | PartAt(a, b, i) ensures i == 0 || (a != [] && b != [] && a[0] == b[0]) {
      if i > 0 { PartLater(a, b, i); }
    }
    if a != [] && b != [] && a[0] == b[0] {
      var a', b' := a[1..], b[1..];
      StringLessIff(a', b');
      assert a == [a[0]] + a' && b == [b[0]] + b';
      if i: nat :| PartAt(a', b', i) {
        assert a[..i + 1] == [a[0]] + a'[..i] && b[..i + 1] == [b[0]] + b'[..i];
        assert PartAt(a, b, i + 1);
      }
      if i: nat :| PartAt(a, b, i) {
        assert i > 0;
        assert a[..i][1..] == a'[..i - 1] && b[..i][1..] == b'[..i - 1];
        assert PartAt(a', b', i - 1);
      }
    } else if StringLess(a, b) {
      assert PartAt(a, b, 0);
    }
  }

  lemma {:induction false} StringLessTotal(a: string, b: string)
    ensures !StringLess(a, b) && !StringLess(b, a) ==> a == b
    ensures !(StringLess(a, b) && StringLess(b, a))
  {
    if a != [] && b != [] {
      StringLessTotal(a[1..], b[1..]);
      assert a == [a[0]] + a[1..] && b == [b[0]] + b[1..];
    }
  }
}
