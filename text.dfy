/**
 * The behaviour of Rust's `str` operations that the contacts store relies
 * on, stated over `string` (a sequence of Unicode scalar values):
 *  - `split` on one character (every delimiter cuts, empty pieces are kept);
 *  - `len()` and `get(start..)`, which count UTF-8 bytes, not characters;
 *  - `i64::to_string` and `str::parse::<i64>`.
 */
module Text {

  import opened Wrappers
  import opened Common

  // ---------------------------------------------------------------------
  // split / join
  // ---------------------------------------------------------------------

  /** `s.split(d)`: n delimiters give n + 1 pieces, in order, none holding `d`. */
  function Split(s: string, d: char): (parts: seq<string>)
    ensures |parts| >= 1
    ensures forall i :: 0 <= i < |parts| ==> d !in parts[i]
  {
    if |s| == 0 then [""]
    else
      var rest := Split(s[1..], d);
      if s[0] == d then [""] + rest
      else [[s[0]] + rest[0]] + rest[1..]
  }

  /** The pieces put back together with `d` between each two. */
  function Join(parts: seq<string>, d: char): string
    requires |parts| >= 1
  {
    if |parts| == 1 then parts[0] else parts[0] + [d] + Join(parts[1..], d)
  }

  /** Splitting and joining again gives back the original string. */
  lemma {:induction false} JoinSplit(s: string, d: char)
    ensures Join(Split(s, d), d) == s
  {
    if |s| > 0 {
      JoinSplit(s[1..], d);
      var rest := Split(s[1..], d);
      if s[0] != d {
        if |rest| > 1 {
          assert Join(rest, d) == rest[0] + [d] + Join(rest[1..], d);
          assert [s[0]] + rest[0] + [d] + Join(rest[1..], d) == [s[0]] + Join(rest, d);
        }
        assert s == [s[0]] + s[1..];
      } else {
        assert s == [d] + s[1..];
      }
    }
  }

  /** A string without the delimiter is one piece. */
  lemma {:induction false} SplitWithoutDelimiter(s: string, d: char)
    requires d !in s
    ensures Split(s, d) == [s]
  {
    if |s| > 0 {
      assert d !in s[1..] by {
        forall i | 0 <= i < |s[1..]| ensures s[1..][i] != d { assert s[1..][i] == s[i + 1]; }
      }
      SplitWithoutDelimiter(s[1..], d);
      assert [s[0]] + s[1..] == s;
    }
  }

  /** A delimiter after a delimiter-free head cuts exactly there. */
  lemma {:induction false} SplitAtFirstDelimiter(a: string, b: string, d: char)
    requires d !in a
    ensures Split(a + [d] + b, d) == [a] + Split(b, d)
  {
    if |a| == 0 {
      assert a + [d] + b == [d] + b;
      assert ([d] + b)[1..] == b;
    } else {
      var s := a + [d] + b;
      assert s[0] == a[0] && s[1..] == a[1..] + [d] + b;
      assert d !in a[1..] by {
        forall i | 0 <= i < |a[1..]| ensures a[1..][i] != d { assert a[1..][i] == a[i + 1]; }
      }
      SplitAtFirstDelimiter(a[1..], b, d);
      assert [a[0]] + a[1..] == a;
    }
  }

  /** Joining delimiter-free pieces and splitting again gives back the pieces. */
  lemma {:induction false} SplitJoin(parts: seq<string>, d: char)
    requires |parts| >= 1
    requires forall i :: 0 <= i < |parts| ==> d !in parts[i]
    ensures Split(Join(parts, d), d) == parts
  {
    if |parts| == 1 {
      SplitWithoutDelimiter(parts[0], d);
    } else {
      SplitJoin(parts[1..], d);
      SplitAtFirstDelimiter(parts[0], Join(parts[1..], d), d);
      assert [parts[0]] + parts[1..] == parts;
    }
  }

  /** Joining one more piece at the end appends the delimiter and the piece. */
  lemma {:induction false} JoinSnoc(parts: seq<string>, last: string, d: char)
    requires |parts| >= 1
    ensures Join(parts + [last], d) == Join(parts, d) + [d] + last
  {
    if |parts| > 1 {
      assert (parts + [last])[1..] == parts[1..] + [last];
      JoinSnoc(parts[1..], last, d);
    }
  }

  /** `needle` occurs in `s` at offset `k`. */
  predicate OccursAt(needle: string, s: string, k: nat) {
    k + |needle| <= |s| && s[k..k + |needle|] == needle
  }

  // ---------------------------------------------------------------------
  // UTF-8 byte lengths and byte-offset slicing
  // ---------------------------------------------------------------------

  /** Number of bytes UTF-8 uses for one character. */
  function Utf8Width(c: char): (w: nat)
    ensures 1 <= w <= 4
    ensures w == 1 <==> (c as int) < 0x80
  {
    if (c as int) < 0x80 then 1
    else if (c as int) < 0x800 then 2
    else if (c as int) < 0x1_0000 then 3
    else 4
  }

  /** `s.len()`: the length of `s` in UTF-8 bytes. */
  function ByteLen(s: string): (n: nat)
    ensures n >= |s|
  {
    if |s| == 0 then 0 else Utf8Width(s[0]) + ByteLen(s[1..])
  }

  /** Every character of `s` is ASCII. */
  predicate IsAscii(s: string) {
    forall i :: 0 <= i < |s| ==> (s[i] as int) < 0x80
  }

  /**
   * `s.get(b..s.len())`: the tail of `s` starting at byte offset `b`, or
   * `None` when `b` falls inside a character or past the end.
   */
  function SuffixFromByte(s: string, b: nat): (r: Option<string>)
  {
    if b == 0 then Some(s)
    else if |s| == 0 || b < Utf8Width(s[0]) then None
    else SuffixFromByte(s[1..], b - Utf8Width(s[0]))
  }

  /** Whatever `get` returns is a tail of the string. */
  lemma {:induction false} SuffixFromByteIsSuffix(s: string, b: nat)
    requires SuffixFromByte(s, b).Some?
    ensures var t := SuffixFromByte(s, b).value; |t| <= |s| && t == s[|s| - |t|..]
  {
    if b != 0 {
      SuffixFromByteIsSuffix(s[1..], b - Utf8Width(s[0]));
    }
  }

  /** A cut at a character boundary succeeds and keeps the characters after it. */
  lemma {:induction false} CutAtCharBoundary(s: string, k: nat)
    requires k <= |s|
    ensures ByteLen(s[k..]) <= ByteLen(s)
    ensures SuffixFromByte(s, ByteLen(s) - ByteLen(s[k..])) == Some(s[k..])
  {
    if k > 0 {
      assert s[1..][k - 1..] == s[k..];
      CutAtCharBoundary(s[1..], k - 1);
    }
  }

  /** On ASCII text bytes are characters: the length and the tails agree. */
  lemma {:induction false} AsciiBytesAreChars(s: string, b: nat)
    requires IsAscii(s) && b <= |s|
    ensures ByteLen(s) == |s|
    ensures SuffixFromByte(s, b) == Some(s[b..])
  {
    if |s| > 0 {
      assert IsAscii(s[1..]) by {
        forall i | 0 <= i < |s[1..]| ensures (s[1..][i] as int) < 0x80 { assert s[1..][i] == s[i + 1]; }
      }
      AsciiBytesAreChars(s[1..], if b == 0 then 0 else b - 1);
      if b > 0 {
        assert s[1..][b - 1..] == s[b..];
      }
    }
  }

  // ---------------------------------------------------------------------
  // i64 to_string and parse
  // ---------------------------------------------------------------------

  predicate IsDigit(c: char) { '0' <= c <= '9' }

  predicate AllDigits(s: string) { forall i :: 0 <= i < |s| ==> IsDigit(s[i]) }

  function DigitChar(d: nat): (c: char)
    requires d < 10
    ensures IsDigit(c) && (c as int) - ('0' as int) == d
  {
    (('0' as int) + d) as char
  }

  /** Decimal digits of `n`, most significant first, no leading zero. */
  function NatToDigits(n: nat): (s: string)
    ensures |s| >= 1 && AllDigits(s)
  {
    if n < 10 then [DigitChar(n)] else NatToDigits(n / 10) + [DigitChar(n % 10)]
  }

  /** `i64::to_string`: a minus sign for negatives, then the digits. */
  function IntToString(n: int): string {
    if n < 0 then "-" + NatToDigits(-n) else NatToDigits(n)
  }

  /** The value of a run of decimal digits. */
  function DigitsValue(s: string): nat
    requires AllDigits(s)
  {
    if |s| == 0 then 0
    else DigitsValue(s[..|s| - 1]) * 10 + ((s[|s| - 1] as int) - ('0' as int))
  }

  /**
   * `s.parse::<i64>()`: an optional `+` or `-`, then at least one digit and
   * nothing else; a value outside the `i64` range is an error.
   */
  function ParseI64(s: string): (r: Option<i64>)
    ensures r.Some? ==> |s| >= 1
  {
    if |s| == 0 then None
    else
      var negative := s[0] == '-';
      var digits := if s[0] == '-' || s[0] == '+' then s[1..] else s;
      if |digits| == 0 || !AllDigits(digits) then None
      else
        var v: int := if negative then -(DigitsValue(digits) as int) else DigitsValue(digits);
        if I64_MIN <= v <= I64_MAX then Some(v) else None
  }

  lemma {:induction false} DigitsValueOfNatToDigits(n: nat)
    ensures DigitsValue(NatToDigits(n)) == n
  {
    var s := NatToDigits(n);
    if n >= 10 {
      DigitsValueOfNatToDigits(n / 10);
      assert s[..|s| - 1] == NatToDigits(n / 10);
    }
  }

  /** Parsing what `to_string` wrote gives back the number. */
  lemma ParseIntToString(n: i64)
    ensures ParseI64(IntToString(n)) == Some(n)
  {
    DigitsValueOfNatToDigits(if n < 0 then -(n as int) else n);
    if n < 0 {
      assert ("-" + NatToDigits(-(n as int)))[1..] == NatToDigits(-(n as int));
    } else {
      assert IsDigit(NatToDigits(n)[0]);
    }
  }
}
