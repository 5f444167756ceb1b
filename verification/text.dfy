/** The string operations the command text passes through: Python's
    `"|".join`, `str(int)` and `str(bool).lower()` on the client, Rust's
    `str::split("|")` and `str::parse::<u32>()` on the server. */
module Text {
  import opened Optional
  import opened Bytes

  const SEP: char := '|'

  /** Rust's `s.split(sep).collect()`: the maximal separator-free pieces
      between separators, always at least one. */
  function Split(s: string, sep: char): (parts: seq<string>)
    ensures |parts| >= 1
    ensures forall i :: 0 <= i < |parts| ==> sep !in parts[i]
    decreases |s|
  {
    if |s| == 0 then [""]
    else if s[0] == sep then [""] + Split(s[1..], sep)
    else
      var rest := Split(s[1..], sep);
      [[s[0]] + rest[0]] + rest[1..]
  }

  /** Python's `sep.join(parts)`. */
  function Join(parts: seq<string>, sep: char): string
    decreases |parts|
  {
    if |parts| == 0 then ""
    else if |parts| == 1 then parts[0]
    else parts[0] + [sep] + Join(parts[1..], sep)
  }

  ghost predicate NoSep(parts: seq<string>, sep: char)
  {
    forall i :: 0 <= i < |parts| ==> sep !in parts[i]
  }

  /** Joining the pieces of a split restores the string. */
  lemma {:induction false} JoinSplit(s: string, sep: char)
    ensures Join(Split(s, sep), sep) == s
    decreases |s|
  {
    if |s| == 0 {
    } else if s[0] == sep {
      JoinSplit(s[1..], sep);
      var rest := Split(s[1..], sep);
      assert Split(s, sep) == [""] + rest;
      assert ([""] + rest)[1..] == rest;
      assert Join(Split(s, sep), sep) == "" + [sep] + Join(rest, sep);
      assert [s[0]] + s[1..] == s;
    } else {
      JoinSplit(s[1..], sep);
      var rest := Split(s[1..], sep);
      var parts := [[s[0]] + rest[0]] + rest[1..];
      assert Split(s, sep) == parts;
      if |rest| == 1 {
        assert Join(rest, sep) == rest[0];
        assert Join(parts, sep) == [s[0]] + rest[0];
      } else {
        assert parts[1..] == rest[1..];
        assert Join(rest, sep) == rest[0] + [sep] + Join(rest[1..], sep);
        assert Join(parts, sep) == [s[0]] + rest[0] + [sep] + Join(rest[1..], sep);
      }
      assert [s[0]] + s[1..] == s;
    }
  }

  /** A separator-free prefix followed by a separator splits off as one piece. */
  lemma {:induction false} SplitPiece(a: string, b: string, sep: char)
    requires sep !in a
    ensures Split(a + [sep] + b, sep) == [a] + Split(b, sep)
    decreases |a|
  {
    var s := a + [sep] + b;
    if |a| == 0 {
      assert s == [sep] + b;
      assert s[1..] == b;
    } else {
      assert s[0] == a[0] && s[1..] == a[1..] + [sep] + b;
      SplitPiece(a[1..], b, sep);
      assert [a[0]] + a[1..] == a;
    }
  }

  /** A separator-free string is a single piece. */
  lemma {:induction false} SplitWhole(a: string, sep: char)
    requires sep !in a
    ensures Split(a, sep) == [a]
    decreases |a|
  {
    if |a| > 0 {
      SplitWhole(a[1..], sep);
      assert [a[0]] + a[1..] == a;
    }
  }

  /** Splitting a join of separator-free pieces recovers the pieces. */
  lemma {:induction false} SplitJoin(parts: seq<string>, sep: char)
    requires |parts| >= 1 && NoSep(parts, sep)
    ensures Split(Join(parts, sep), sep) == parts
    decreases |parts|
  {
    if |parts| == 1 {
      SplitWhole(parts[0], sep);
    } else {
      assert sep !in parts[0];
      SplitPiece(parts[0], Join(parts[1..], sep), sep);
      SplitJoin(parts[1..], sep);
      assert [parts[0]] + parts[1..] == parts;
    }
  }

  // ---- decimal numbers ----

  function DigitChar(d: nat): char
    requires d < 10
  {
    ('0' as int + d) as char
  }

  predicate IsDigit(c: char)
  {
    '0' <= c <= '9'
  }

  predicate AllDigits(s: string)
  {
    forall i :: 0 <= i < |s| ==> IsDigit(s[i])
  }

  /** Python's `str(n)` for a non-negative `int`: decimal digits, no leading
      zero except for `0` itself. */
  function Decimal(n: nat): (s: string)
    ensures |s| >= 1 && AllDigits(s)
    ensures |s| > 1 ==> s[0] != '0'
    decreases n
  {
    if n < 10 then [DigitChar(n)] else Decimal(n / 10) + [DigitChar(n % 10)]
  }

  /** Python's `str(i)` for any `int`. */
  function IntText(i: int): string
  {
    if i < 0 then "-" + Decimal(-i) else Decimal(i)
  }

  /** The value of a string of decimal digits. */
  function DigitsValue(s: string): nat
    requires AllDigits(s)
  {
    if |s| == 0 then 0
    else
      assert IsDigit(s[|s| - 1]);
      DigitsValue(s[..|s| - 1]) * 10 + (s[|s| - 1] as int - '0' as int)
  }

  lemma {:induction false} DigitsValueDecimal(n: nat)
    ensures DigitsValue(Decimal(n)) == n
    decreases n
  {
    if n >= 10 {
      DigitsValueDecimal(n / 10);
      var s := Decimal(n);
      assert s[..|s| - 1] == Decimal(n / 10);
    }
  }

  /** Distinct numbers have distinct decimal forms. */
  lemma DecimalInjective(m: nat, n: nat)
    requires Decimal(m) == Decimal(n)
    ensures m == n
  {
    DigitsValueDecimal(m);
    DigitsValueDecimal(n);
  }

  /** Rust's `s.parse::<u32>()`: an optional `+`, then at least one ASCII
      digit and nothing else, with a value below 2^32; `None` is the `Err`. */
  function ParseU32(s: string): (r: Option<nat>)
    ensures r.Some? ==> r.value < U32_LIMIT
  {
    var digits := if |s| > 0 && s[0] == '+' then s[1..] else s;
    if |digits| == 0 then None
    else if !AllDigits(digits) then None
    else if DigitsValue(digits) >= U32_LIMIT then None
    else Some(DigitsValue(digits))
  }

  /** What the client writes for an `int` argument parses on the server
      exactly when it fits a `u32`, and then to the same number. */
  lemma ParseIntText(i: int)
    ensures ParseU32(IntText(i)) == (if 0 <= i < U32_LIMIT then Some(i) else None)
  {
    if i < 0 {
      var s := IntText(i);
      assert s[0] == '-' && !IsDigit(s[0]);
      assert !AllDigits(s);
    } else {
      DigitsValueDecimal(i);
    }
  }

  // ---- booleans ----

  /** Python's `str(b)`. */
  function BoolText(b: bool): string
  {
    if b then "True" else "False"
  }

  /** Python's `str.lower()` on ASCII letters (the only text it is applied to). */
  function Lower(s: string): (r: string)
    ensures |r| == |s|
  {
    seq(|s|, i requires 0 <= i < |s| => if 'A' <= s[i] <= 'Z' then (s[i] as int + 32) as char else s[i])
  }

  /** The client's `str(flag).lower()` is the server's `"true"` exactly when
      the flag is set, and it never contains the separator. */
  lemma LowerBoolText(b: bool)
    ensures (Lower(BoolText(b)) == "true") <==> b
    ensures SEP !in Lower(BoolText(b))
  {
    var t := Lower(BoolText(b));
    if b {
      assert t == "true";
    } else {
      assert t[0] == 'f';
    }
  }
}
