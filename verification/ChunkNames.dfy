/**
  Chunk file names (internal/fetch/sync/blockstore/chunk.go) and line prefixes (gobtext.go): heights written with twelve
  digits, so that names sort as numbers.
 */
module ChunkNames {
  import opened Options

  function Pow10(n: nat): (p: nat)
    ensures p > 0
  {
    if n == 0 then 1 else 10 * Pow10(n - 1)
  }

  const MAX_INT64: int := 0x7fff_ffff_ffff_ffff

  function DigitChar(d: nat): char
    requires d < 10
  {
    ('0' as int + d) as char
  }

  predicate IsDigit(c: char) { '0' <= c <= '9' }

  predicate AllDigits(s: string) {
    forall i | 0 <= i < |s| :: IsDigit(s[i])
  }

  /** The last `width` decimal digits of a number. */
  function Digits(n: nat, width: nat): (s: string)
    ensures |s| == width && AllDigits(s)
    decreases n, width
  {
    if width == 0 then "" else Digits(n / 10, width - 1) + [DigitChar(n % 10)]
  }

  /** All decimal digits of a number. */
  function Decimal(n: nat): (s: string)
    ensures |s| > 0 && AllDigits(s)
  {
    if n < 10 then [DigitChar(n)] else Decimal(n / 10) + [DigitChar(n % 10)]
  }

  /** A number padded with zeros to at least `width` digits. */
  function Padded(n: nat, width: nat): (s: string)
    requires width > 0
    ensures AllDigits(s) && |s| > 0
  {
    if n < Pow10(width) then Digits(n, width) else Decimal(n)
  }

  /** %012d */
  function Format12(n: nat): string { Padded(n, 12) }

  /** %012d of any height: the sign takes one of the twelve places. */
  function ChunkName(height: int): string {
    if height >= 0 then Format12(height) else "-" + Padded(-height, 11)
  }

  function Value(s: string): nat
    requires AllDigits(s)
  {
    if s == "" then 0 else 10 * Value(s[..|s| - 1]) + (s[|s| - 1] as int - '0' as int)
  }

  /** strconv.ParseInt(s, 10, 64) */
  function ParseInt(s: string): Option<int> {
    var digits := if s != "" && (s[0] == '+' || s[0] == '-') then s[1..] else s;
    if digits == "" || !AllDigits(digits) then None
    else
      var v: int := if s[0] == '-' then 0 - Value(digits) else Value(digits);
      if -MAX_INT64 - 1 <= v <= MAX_INT64 then Some(v) else None
  }

  /** The order in which a directory lists its names. */
  predicate Less(s: string, t: string) {
    if t == "" then false
    else if s == "" then true
    else if s[0] != t[0] then s[0] < t[0]
    else Less(s[1..], t[1..])
  }

  // ---------------------------------------------------------------------------------------------
  // Writing and reading heights

  lemma {:induction false} ValueOfDigits(n: nat, width: nat)
    requires n < Pow10(width)
    ensures Value(Digits(n, width)) == n
  {
    if width > 0 {
      ValueOfDigits(n / 10, width - 1);
    }
  }

  lemma {:induction false} ValueOfDecimal(n: nat)
    ensures Value(Decimal(n)) == n
  {
    if n >= 10 {
      ValueOfDecimal(n / 10);
    } else {
      assert Decimal(n)[..0] == "";
    }
  }

  lemma ValueOfPadded(n: nat, width: nat)
    requires width > 0
    ensures Value(Padded(n, width)) == n
  {
    if n < Pow10(width) {
      ValueOfDigits(n, width);
    } else {
      ValueOfDecimal(n);
    }
  }

  /** A chunk name reads back as the height it was made from. */
  lemma NameRoundTrip(height: nat)
    requires height <= MAX_INT64
    ensures ParseInt(Format12(height)) == Some(height)
  {
    ValueOfPadded(height, 12);
    assert IsDigit(Format12(height)[0]);
  }

  lemma NamesAreDistinct(h: nat, k: nat)
    requires Format12(h) == Format12(k)
    ensures h == k
  {
    ValueOfPadded(h, 12);
    ValueOfPadded(k, 12);
  }

  // ---------------------------------------------------------------------------------------------
  // Sorting

  lemma {:induction false} LessIsTotal(s: string, t: string)
    ensures s == t || Less(s, t) || Less(t, s)
  {
    if s != "" && t != "" && s[0] == t[0] {
      LessIsTotal(s[1..], t[1..]);
      assert s == [s[0]] + s[1..] && t == [t[0]] + t[1..];
    }
  }

  lemma {:induction false} LessIsTransitive(s: string, t: string, u: string)
    requires Less(s, t) && Less(t, u)
    ensures Less(s, u)
  {
    if s != "" && s[0] == t[0] == u[0] {
      LessIsTransitive(s[1..], t[1..], u[1..]);
    }
  }

  lemma {:induction false} LessIsAsymmetric(s: string, t: string)
    ensures !(Less(s, t) && Less(t, s))
  {
    if s != "" && t != "" {
      LessIsAsymmetric(s[1..], t[1..]);
    }
  }

  lemma {:induction false} LessByLast(s: string, t: string, a: char, b: char)
    requires |s| == |t|
    ensures Less(s + [a], t + [b]) <==> Less(s, t) || (s == t && a < b)
  {
    if s == "" {
      assert (s + [a])[1..] == "" && (t + [b])[1..] == "";
    } else {
      assert (s + [a])[1..] == s[1..] + [a] && (t + [b])[1..] == t[1..] + [b];
      LessByLast(s[1..], t[1..], a, b);
      assert s == [s[0]] + s[1..] && t == [t[0]] + t[1..];
    }
  }

  /** Digit strings of one length sort as the numbers they stand for. */
  lemma {:induction false} LessIsNumeric(s: string, t: string)
    requires |s| == |t| && AllDigits(s) && AllDigits(t)
    ensures Less(s, t) <==> Value(s) < Value(t)
    ensures Value(s) == Value(t) ==> s == t
  {
    if s != "" {
      var n := |s| - 1;
      LessIsNumeric(s[..n], t[..n]);
      LessByLast(s[..n], t[..n], s[n], t[n]);
      assert s == s[..n] + [s[n]] && t == t[..n] + [t[n]];
    }
  }

  /** Below a bound, names sort as the heights they stand for. */
  ghost predicate NamesSort(bound: int, width: nat)
    requires width > 0
  {
    forall h, k | 0 <= h < k < bound :: Less(Padded(h, width), Padded(k, width))
  }

  lemma {:induction false} NinesFirst(width: nat)
    requires width > 0
    ensures Digits(Pow10(width) - 1, width)[0] == '9'
  {
    if width > 1 {
      assert (Pow10(width) - 1) / 10 == Pow10(width - 1) - 1;
      NinesFirst(width - 1);
    }
  }

  lemma {:induction false} OneFirst(n: nat)
    ensures Decimal(Pow10(n))[0] == '1'
  {
    if n > 0 {
      OneFirst(n - 1);
    }
  }

  lemma DigitsSort(h: nat, k: nat, width: nat)
    requires width > 0 && h < k < Pow10(width)
    ensures Less(Padded(h, width), Padded(k, width))
  {
    ValueOfDigits(h, width);
    ValueOfDigits(k, width);
    LessIsNumeric(Digits(h, width), Digits(k, width));
  }

  lemma OneMoreDigitDoesNot(width: nat)
    requires width > 0
    ensures !Less(Padded(Pow10(width) - 1, width), Padded(Pow10(width), width))
  {
    NinesFirst(width);
    OneFirst(width);
  }

  /** Names sort as numbers exactly as long as the padded width is enough; chunk names use twelve digits. */
  lemma NamesSortIff(bound: int, width: nat)
    requires width > 0
    ensures NamesSort(bound, width) <==> bound <= Pow10(width)
  {
    if bound <= Pow10(width) {
      forall h, k | 0 <= h < k < bound
        ensures Less(Padded(h, width), Padded(k, width))
      {
        DigitsSort(h, k, width);
      }
    } else {
      OneMoreDigitDoesNot(width);
    }
  }

  // ---------------------------------------------------------------------------------------------
  // Temporary names

  const TMP := "tmp"

  /** ^tmp$|^[0-9]{12}\.tmp$ */
  predicate IsTemporaryChunk(name: string) {
    || name == TMP
    || (|name| == 16 && AllDigits(name[..12]) && name[12..] == ".tmp")
  }

  /** No finished chunk looks temporary, and no temporary file looks like a chunk. */
  lemma TemporaryNamesAreNoChunks(name: string)
    requires IsTemporaryChunk(name)
    ensures ParseInt(name).None?
  {
    if name == TMP {
      assert !IsDigit(name[0]);
    } else {
      assert IsDigit(name[..12][0]);
      assert name[12] == name[12..][0] == '.';
    }
  }

  lemma ClosedNamesAreTemporary(height: nat)
    requires height < Pow10(12)
    ensures IsTemporaryChunk(Format12(height) + ".tmp")
  {
    var name := Format12(height) + ".tmp";
    assert name[..12] == Format12(height) && name[12..] == ".tmp";
  }
}
