/**
 * The `RxC` size argument of the tester's add_task command: split on 'x'
 * (Go's `strings.Split`), then each part read by `strconv.Atoi`.
 */
module SizeToken {
  import opened Results

  const Separator: char := 'x'

  /** Bounds of Go's 64-bit `int`, outside which `strconv.Atoi` reports a range error. */
  const IntMin: int := -0x8000_0000_0000_0000
  const IntMax: int := 0x7fff_ffff_ffff_ffff

  /** How many times `sep` occurs in `s`. */
  function Count(s: string, sep: char): nat
  {
    if |s| == 0 then 0 else (if s[0] == sep then 1 else 0) + Count(s[1..], sep)
  }

  /**
   * The pieces of `s` between occurrences of `sep`; the empty string gives one
   * empty piece, and a separator at either end gives an empty piece there.
   */
  function Split(s: string, sep: char): (parts: seq<string>)
    ensures |parts| >= 1
  {
    if |s| == 0 then [""]
    else
      var rest := Split(s[1..], sep);
      if s[0] == sep then [""] + rest else [[s[0]] + rest[0]] + rest[1..]
  }

  /** The pieces put back together with `sep` between them. */
  function Join(parts: seq<string>, sep: char): string
    requires |parts| >= 1
  {
    if |parts| == 1 then parts[0] else parts[0] + [sep] + Join(parts[1..], sep)
  }

  /** There is one more piece than there are separators. */
  lemma {:induction false} SplitCount(s: string, sep: char)
    ensures |Split(s, sep)| == Count(s, sep) + 1
  {
    if |s| > 0 {
      SplitCount(s[1..], sep);
    }
  }

  /** Joining the pieces with the separator gives back the string. */
  lemma {:induction false} SplitJoin(s: string, sep: char)
    ensures Join(Split(s, sep), sep) == s
  {
    if |s| > 0 {
      var rest := Split(s[1..], sep);
      SplitJoin(s[1..], sep);
      if s[0] != sep {
        if |rest| == 1 {
          assert Split(s, sep) == [[s[0]] + rest[0]];
        } else {
          var parts := Split(s, sep);
          assert parts[1..] == rest[1..];
          assert Join(rest, sep) == rest[0] + [sep] + Join(rest[1..], sep);
        }
      } else {
        assert Split(s, sep)[1..] == rest;
      }
    }
  }

  /** No piece contains the separator. */
  lemma {:induction false} SplitPiecesFree(s: string, sep: char)
    ensures forall i :: 0 <= i < |Split(s, sep)| ==> sep !in Split(s, sep)[i]
  {
    if |s| > 0 {
      SplitPiecesFree(s[1..], sep);
    }
  }

  /** Two separator-free strings around one separator split back into exactly those two. */
  lemma {:induction false} SplitAround(a: string, b: string, sep: char)
    requires sep !in a && sep !in b
    ensures Split(a + [sep] + b, sep) == [a, b]
    decreases |a|
  {
    if |a| == 0 {
      assert a + [sep] + b == [sep] + b;
      assert ([sep] + b)[1..] == b;
      SplitNoSeparator(b, sep);
    } else {
      assert (a + [sep] + b)[1..] == a[1..] + [sep] + b;
      SplitAround(a[1..], b, sep);
      assert [a[0]] + a[1..] == a;
    }
  }

  lemma {:induction false} SplitNoSeparator(s: string, sep: char)
    requires sep !in s
    ensures Split(s, sep) == [s]
  {
    if |s| > 0 {
      assert sep !in s[1..];
      SplitNoSeparator(s[1..], sep);
      assert [s[0]] + s[1..] == s;
    }
  }

  predicate IsDigit(c: char) { '0' <= c <= '9' }

  predicate AllDigits(s: string) { forall i :: 0 <= i < |s| ==> IsDigit(s[i]) }

  /** The value of a decimal digit string, most significant digit first. */
  function DigitsValue(s: string): nat
    requires AllDigits(s)
  {
    if |s| == 0 then 0
    else DigitsValue(s[..|s| - 1]) * 10 + (s[|s| - 1] as int - '0' as int)
  }

  /**
   * `strconv.Atoi`: an optional '+' or '-', then at least one decimal digit
   * and nothing else, and a value that fits a 64-bit `int`.
   */
  function Atoi(s: string): (r: Option<int>)
    ensures r.Some? ==> IntMin <= r.value <= IntMax
    ensures r.Some? ==> |s| > 0 && (IsDigit(s[0]) || s[0] == '+' || s[0] == '-')
  {
    if |s| == 0 then None
    else
      var signed := s[0] == '+' || s[0] == '-';
      var digits := if signed then s[1..] else s;
      if |digits| == 0 || !AllDigits(digits) then None
      else
        var magnitude: int := DigitsValue(digits);
        var v := if s[0] == '-' then -magnitude else magnitude;
        if IntMin <= v <= IntMax then Some(v) else None
  }

  /** The decimal rendering of a natural number, without sign or leading zeros. */
  function ShowNat(n: nat): (s: string)
    ensures |s| > 0 && AllDigits(s)
  {
    if n < 10 then [('0' as int + n) as char]
    else ShowNat(n / 10) + [('0' as int + n % 10) as char]
  }

  lemma {:induction false} DigitsValueShow(n: nat)
    ensures DigitsValue(ShowNat(n)) == n
  {
    if n >= 10 {
      DigitsValueShow(n / 10);
      var s := ShowNat(n);
      assert s[..|s| - 1] == ShowNat(n / 10);
    }
  }

  /** Reading back a rendered number in range gives the number. */
  lemma AtoiShow(n: nat)
    requires n <= IntMax
    ensures Atoi(ShowNat(n)) == Some(n)
  {
    DigitsValueShow(n);
    var s := ShowNat(n);
    assert IsDigit(s[0]);
  }

  /** Why an add_task size argument was refused. */
  datatype SizeError = BadFormat | BadRows | BadCols

  /**
   * Splits the token on 'x': anything other than two pieces is a format
   * error; then the rows piece and the columns piece are read in that order.
   */
  function ParseSize(token: string): (r: Result<(int, int), SizeError>)
    ensures r.Ok? ==> IntMin <= r.value.0 <= IntMax && IntMin <= r.value.1 <= IntMax
  {
    var parts := Split(token, Separator);
    if |parts| != 2 then Err(BadFormat)
    else
      match Atoi(parts[0])
      case None => Err(BadRows)
      case Some(rows) =>
        match Atoi(parts[1])
        case None => Err(BadCols)
        case Some(cols) => Ok((rows, cols))
  }

  /** The format error happens exactly when the token does not hold a single 'x'. */
  lemma ParseSizeFormat(token: string)
    ensures ParseSize(token) == Err(BadFormat) <==> Count(token, Separator) != 1
  {
    SplitCount(token, Separator);
  }

  /** A successful parse reads back the two pieces around the single 'x'. */
  lemma ParseSizeOk(token: string)
    requires ParseSize(token).Ok?
    ensures exists a, b :: token == a + [Separator] + b &&
              Atoi(a) == Some(ParseSize(token).value.0) && Atoi(b) == Some(ParseSize(token).value.1)
  {
    var parts := Split(token, Separator);
    SplitJoin(token, Separator);
    assert Join(parts, Separator) == parts[0] + [Separator] + Join(parts[1..], Separator);
    assert parts[1..] == [parts[1]];
  }

  /** Rendering two sizes around an 'x' parses back to the same sizes. */
  lemma ParseSizeShow(rows: nat, cols: nat)
    requires rows <= IntMax && cols <= IntMax
    ensures ParseSize(ShowNat(rows) + [Separator] + ShowNat(cols)) == Ok((rows, cols))
  {
    var a, b := ShowNat(rows), ShowNat(cols);
    SplitAround(a, b, Separator);
    AtoiShow(rows);
    AtoiShow(cols);
  }

  /** The command-line example "2x3" asks for a 2×3 matrix A. */
  lemma ParseTwoByThree()
    ensures ParseSize("2x3") == Ok((2, 3))
  {
    ParseSizeShow(2, 3);
    assert ShowNat(2) + [Separator] + ShowNat(3) == "2x3";
  }
}
