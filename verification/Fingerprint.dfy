/** The text form of DTLS certificate fingerprints. */
module Fingerprint {
  import opened Common

  datatype Algorithm = Sha1 | Sha224 | Sha256 | Sha384 | Sha512 {
    function Size(): nat {
      match this
      case Sha1 => 20
      case Sha224 => 28
      case Sha256 => 32
      case Sha384 => 48
      case Sha512 => 64
    }

    function Name(): string {
      match this
      case Sha1 => "sha-1"
      case Sha224 => "sha-224"
      case Sha256 => "sha-256"
      case Sha384 => "sha-384"
      case Sha512 => "sha-512"
    }
  }

  datatype DtlsFingerprint = DtlsFingerprint(algorithm: Algorithm, value: seq<u8>)

  ghost predicate WellSized(f: DtlsFingerprint) { |f.value| == f.algorithm.Size() }

  /** The sizes of the digests, an eighth of the bits that name them; SHA-1 has 160. */
  lemma SizesExactly(a: Algorithm)
    ensures a.Size() * 8 == match a case Sha1 => 160 case Sha224 => 224 case Sha256 => 256
                                    case Sha384 => 384 case Sha512 => 512
    ensures a.Name() == match a case Sha1 => "sha-1" case Sha224 => "sha-224" case Sha256 => "sha-256"
                                case Sha384 => "sha-384" case Sha512 => "sha-512"
  {
  }

  /** `SplitCharacter` is a panic: a slice of the text would begin or end inside a character. */
  datatype ParseError = UnknownAlgorithm | WrongLength | NotHex | SplitCharacter

  /** Texts are the bytes of their UTF-8 encoding, which is what their length and slices are measured in. */
  type Text = seq<u8>

  const COLON: u8 := 58
  const PLUS: u8 := 43

  function HexDigit(n: int): u8
    requires 0 <= n < 16
  {
    if n < 10 then 48 + n else 55 + n
  }

  /** The value of a digit in either case, or -1. */
  function DigitValue(c: u8): int {
    if 48 <= c <= 57 then c - 48
    else if 65 <= c <= 70 then c - 55
    else if 97 <= c <= 102 then c - 87
    else -1
  }

  lemma DigitRoundTrip(n: int)
    requires 0 <= n < 16
    ensures DigitValue(HexDigit(n)) == n && HexDigit(n) != PLUS
  {
  }

  /** Exactly the sixteen digits have a value, the letters in either case. */
  lemma DigitExactly(c: u8, n: int)
    requires 0 <= n < 16
    ensures DigitValue(c) == n <==> c == "0123456789ABCDEF"[n] as int || c == "0123456789abcdef"[n] as int
    ensures DigitValue(c) == -1 || 0 <= DigitValue(c) < 16
    ensures HexDigit(n) == "0123456789ABCDEF"[n] as int
  {
  }

  /** Two bytes of text as a byte in base 16, by the rules of Rust's `from_str_radix`: a plus sign may lead. */
  function ByteOf(a: u8, b: u8): Option<u8> {
    if DigitValue(b) < 0 then None
    else if a == PLUS then Some(DigitValue(b))
    else if DigitValue(a) < 0 then None
    else Some(16 * DigitValue(a) + DigitValue(b))
  }

  /** A byte is two digits, or a plus sign and a digit. */
  lemma ByteExactly(a: u8, b: u8, byte: u8)
    ensures ByteOf(a, b) == Some(byte) <==>
            || (DigitValue(a) >= 0 && DigitValue(b) >= 0 && byte == 16 * DigitValue(a) + DigitValue(b))
            || (a == '+' as int && DigitValue(b) >= 0 && byte == DigitValue(b))
  {
    DigitExactly(a, 0);
    DigitExactly(b, 0);
  }

  /** A byte that continues a character of several bytes (section 3 of RFC 3629). */
  predicate Continues(b: u8) { 0x80 <= b < 0xC0 }

  /** What is used of UTF-8: a byte that continues a character follows a byte of the same character, not ASCII. */
  ghost predicate IsStr(text: Text) {
    forall i :: 0 <= i < |text| && Continues(text[i]) ==> 0 < i && text[i - 1] >= 0x80
  }

  /** A position at which the text can be sliced. */
  predicate Boundary(text: Text, i: nat) {
    i == 0 || i == |text| || (i < |text| && !Continues(text[i]))
  }

  /** The i-th pair can be sliced out of the text. */
  predicate Sliceable(text: Text, i: nat) {
    Boundary(text, 3 * i) && Boundary(text, 3 * i + 2)
  }

  /** Two upper-case digits per byte, separated by colons. */
  function ValueString(value: seq<u8>): Text {
    if value == [] then []
    else if |value| == 1 then HexPair(value[0])
    else ValueString(Init(value)) + [COLON] + HexPair(Last(value))
  }

  function HexPair(b: u8): Text { [HexDigit(b / 16), HexDigit(b % 16)] }

  lemma {:induction false} ValueStringLength(value: seq<u8>)
    requires value != []
    ensures |ValueString(value)| == 3 * |value| - 1
  {
    if |value| > 1 {
      ValueStringLength(Init(value));
    }
  }

  /** The text has the digits of the byte `b` at the i-th pair, and a colon after it unless it ends there. */
  ghost predicate PrintsAt(text: Text, i: nat, b: u8) {
    && 3 * i + 1 < |text| && text[3 * i] == HexDigit(b / 16) && text[3 * i + 1] == HexDigit(b % 16)
    && (3 * i + 2 < |text| ==> text[3 * i + 2] == ':' as int)
  }

  lemma {:induction false} ValueStringAt(value: seq<u8>, i: nat)
    requires i < |value|
    ensures |ValueString(value)| == 3 * |value| - 1 && PrintsAt(ValueString(value), i, value[i])
  {
    ValueStringLength(value);
    if |value| > 1 {
      var front := ValueString(Init(value));
      ValueStringLength(Init(value));
      if i < |value| - 1 {
        ValueStringAt(Init(value), i);
        PrintedInFront(front, HexPair(Last(value)), i, value[i]);
      } else {
        PrintedLast(front, i, value[i]);
      }
    }
  }

  lemma PrintedInFront(front: Text, more: Text, i: nat, b: u8)
    requires PrintsAt(front, i, b) && |front| % 3 == 2
    ensures PrintsAt(front + [COLON] + more, i, b)
  {
  }

  lemma PrintedLast(front: Text, i: nat, b: u8)
    requires |front| == 3 * i - 1
    ensures PrintsAt(front + [COLON] + HexPair(b), i, b)
  {
  }

  /** The bytes that a text of the right length stands for, if all pairs are bytes; separators are not looked at. */
  ghost predicate ParsesTo(text: Text, value: seq<u8>) {
    && |text| == 3 * |value| - 1
    && forall i :: 0 <= i < |value| ==> PairAt(text, i) == Some(value[i])
  }

  function PairAt(text: Text, i: nat): Option<u8> {
    if 3 * i + 1 < |text| then ByteOf(text[3 * i], text[3 * i + 1]) else None
  }

  /** A pair that is a byte is ASCII, so it can be sliced out. */
  lemma PairSliceable(text: Text, i: nat)
    requires IsStr(text) && PairAt(text, i).Some?
    ensures Sliceable(text, i)
  {
    assert !Continues(text[3 * i]) && text[3 * i + 1] < 0x80;
  }

  /** The i-th pair is the first of `n` that is not a byte. */
  ghost predicate FirstBad(text: Text, n: nat, i: int) {
    0 <= i < n && PairAt(text, i).None? && forall k :: 0 <= k < i ==> PairAt(text, k).Some?
  }

  /** None when all pairs are bytes; else the first that is not is reported, or panics if it cannot be sliced out. */
  method ParseAsBytes(text: Text, output: array<u8>) returns (error: Option<ParseError>)
    requires IsStr(text) && output.Length > 0 && |text| == 3 * output.Length - 1
    modifies output
    ensures error.None? ==> ParsesTo(text, output[..])
    ensures error == Some(NotHex) <==> exists i :: FirstBad(text, output.Length, i) && Sliceable(text, i)
    ensures error == Some(SplitCharacter) <==> exists i :: FirstBad(text, output.Length, i) && !Sliceable(text, i)
    ensures error.None? || error == Some(NotHex) || error == Some(SplitCharacter)
  {
    for i := 0 to output.Length
      invariant forall k :: 0 <= k < i ==> PairAt(text, k) == Some(output[k])
    {
      if !Boundary(text, 3 * i) || !Boundary(text, 3 * i + 2) {
        if PairAt(text, i).Some? {
          PairSliceable(text, i);
        }
        assert FirstBad(text, output.Length, i) && !Sliceable(text, i);
        return Some(SplitCharacter);
      }
      var byte := ByteOf(text[3 * i], text[3 * i + 1]);
      if byte.None? {
        assert FirstBad(text, output.Length, i);
        return Some(NotHex);
      }
      output[i] := byte.value;
    }
    error := None;
  }

  /** The outcome for a text of the right length. */
  ghost predicate PairsFail(text: Text, n: nat, split: bool) {
    |text| == 3 * n - 1 && exists i :: FirstBad(text, n, i) && (split <==> !Sliceable(text, i))
  }

  /** Reading a fingerprint from its algorithm name and its text. */
  method Parse(name: string, text: Text) returns (r: Result<DtlsFingerprint, ParseError>)
    requires IsStr(text)
    ensures r.Ok? ==> WellSized(r.value) && r.value.algorithm.Name() == name && ParsesTo(text, r.value.value)
    ensures r == Err(UnknownAlgorithm) <==> forall a: Algorithm :: a.Name() != name
    ensures r == Err(WrongLength) <==> exists a: Algorithm :: a.Name() == name && |text| != 3 * a.Size() - 1
    ensures r == Err(NotHex) <==> exists a: Algorithm :: a.Name() == name && PairsFail(text, a.Size(), false)
    ensures r == Err(SplitCharacter) <==> exists a: Algorithm :: a.Name() == name && PairsFail(text, a.Size(), true)
  {
    NamesDiffer();
    var algorithm;
    if name == "sha-1" {
      algorithm := Sha1;
    } else if name == "sha-224" {
      algorithm := Sha224;
    } else if name == "sha-256" {
      algorithm := Sha256;
    } else if name == "sha-384" {
      algorithm := Sha384;
    } else if name == "sha-512" {
      algorithm := Sha512;
    } else {
      return Err(UnknownAlgorithm);
    }
    assert algorithm.Name() == name;
    if |text| != 3 * algorithm.Size() - 1 {
      return Err(WrongLength);
    }
    var value := new u8[algorithm.Size()](_ => 0);
    var error := ParseAsBytes(text, value);
    if error.Some? {
      return Err(error.value);
    }
    r := Ok(DtlsFingerprint(algorithm, value[..]));
  }

  lemma NamesDiffer()
    ensures forall a: Algorithm, b: Algorithm :: a.Name() == b.Name() ==> a == b
  {
    assert "sha-224"[4] != "sha-256"[5] && "sha-1"[4] == '1';
    assert "sha-224"[5] == '2' && "sha-256"[5] == '5' && "sha-384"[4] == '3' && "sha-512"[4] == '5';
  }

  /** A text of the right length is read without a panic exactly when it is all bytes or the first pair that is not one
      begins and ends between characters. */
  lemma NoPanicExactly(text: Text, n: nat)
    requires IsStr(text) && n > 0 && |text| == 3 * n - 1
    ensures !PairsFail(text, n, true) <==>
            || (forall i :: 0 <= i < n ==> PairAt(text, i).Some?)
            || exists i :: FirstBad(text, n, i) && Sliceable(text, i)
  {
    if exists i :: 0 <= i < n && PairAt(text, i).None? {
      var i :| 0 <= i < n && PairAt(text, i).None?;
      var f := BadBefore(text, n, i);
    }
  }

  lemma {:induction false} BadBefore(text: Text, n: nat, i: nat) returns (f: nat)
    requires i < n && PairAt(text, i).None?
    ensures FirstBad(text, n, f)
    decreases i
  {
    if k: nat :| k < i && PairAt(text, k).None? {
      f := BadBefore(text, n, k);
    } else {
      f := i;
    }
  }

  /** For every length from two pairs on there is a text that panics: its first separator is a two-byte character. */
  lemma WideSeparatorPanics(n: nat)
    requires n > 1
    ensures var text := WideSeparator(n); IsStr(text) && |text| == 3 * n - 1 && PairsFail(text, n, true)
  {
    var text := WideSeparator(n);
    assert PairAt(text, 0) == Some(0xaa);
    assert FirstBad(text, n, 1) && !Sliceable(text, 1);
  }

  /** So is one whose first digit is followed by such a character: the first pair then ends inside it. */
  lemma WideDigitPanics(n: nat)
    requires n > 1
    ensures var text := WideDigit(n); IsStr(text) && |text| == 3 * n - 1 && PairsFail(text, n, true)
  {
    assert FirstBad(WideDigit(n), n, 0) && !Sliceable(WideDigit(n), 0);
  }

  function WideDigit(n: nat): Text
    requires n > 1
  {
    seq(3 * n - 1, i requires 0 <= i < 3 * n - 1 => if i == 1 then 0xC3 else if i == 2 then 0xA9 else 97)
  }

  function WideSeparator(n: nat): Text
    requires n > 1
  {
    seq(3 * n - 1, i requires 0 <= i < 3 * n - 1 => if i == 2 then 0xC3 else if i == 3 then 0xA9 else 97)
  }

  /** Printing and reading back gives the same bytes, and a printed text is ASCII. */
  lemma PrintParse(value: seq<u8>)
    requires value != []
    ensures ParsesTo(ValueString(value), value)
    ensures forall i :: 0 <= i < |ValueString(value)| ==> ValueString(value)[i] < 0x80
  {
    var text := ValueString(value);
    ValueStringAt(value, 0);
    forall i | 0 <= i < |value|
      ensures PairAt(text, i) == Some(value[i]) && PrintsAt(text, i, value[i])
    {
      PrintedPair(value, i);
    }
    forall j | 0 <= j < |text|
      ensures text[j] < 0x80
    {
      assert PrintsAt(text, j / 3, value[j / 3]);
      assert j == 3 * (j / 3) || j == 3 * (j / 3) + 1 || j == 3 * (j / 3) + 2;
    }
  }

  lemma PrintedPair(value: seq<u8>, i: nat)
    requires i < |value|
    ensures PairAt(ValueString(value), i) == Some(value[i]) && PrintsAt(ValueString(value), i, value[i])
  {
    ValueStringAt(value, i);
    HexPairByte(value[i]);
  }

  lemma HexPairByte(b: u8)
    ensures ByteOf(HexDigit(b / 16), HexDigit(b % 16)) == Some(b)
  {
    DigitRoundTrip(b / 16);
    DigitRoundTrip(b % 16);
  }

  /** The bytes read are determined by the text. */
  lemma ParseUnique(text: Text, a: seq<u8>, b: seq<u8>)
    requires ParsesTo(text, a) && ParsesTo(text, b)
    ensures a == b
  {
    forall i | 0 <= i < |a|
      ensures a[i] == b[i]
    {
      assert PairAt(text, i) == Some(a[i]) && PairAt(text, i) == Some(b[i]);
    }
  }

  predicate UpperHex(c: u8) { 48 <= c <= 57 || 65 <= c <= 70 }

  /** Upper-case digits in pairs, with a colon between pairs. */
  ghost predicate Canonical(text: Text, n: nat) {
    && |text| == 3 * n - 1
    && forall i :: 0 <= i < n ==> CanonicalAt(text, i)
  }

  ghost predicate CanonicalAt(text: Text, i: nat) {
    && 3 * i + 1 < |text| && UpperHex(text[3 * i]) && UpperHex(text[3 * i + 1])
    && (3 * i + 2 < |text| ==> text[3 * i + 2] == ':' as int)
  }

  /** Reading and printing again gives back the text exactly when it was canonical: lower-case digits, plus signs
      and other separators are accepted and not reproduced. */
  lemma ParsePrintExactly(text: Text, value: seq<u8>)
    requires value != [] && ParsesTo(text, value)
    ensures ValueString(value) == text <==> Canonical(text, |value|)
  {
    ValueStringLength(value);
    forall i | 0 <= i < |value|
      ensures CanonicalAt(ValueString(value), i)
    {
      ValueStringAt(value, i);
    }
    if Canonical(text, |value|) {
      CanonicalPrints(text, value);
    }
  }

  /** For every length there is a text that is accepted and not reproduced. */
  lemma LowerCaseAccepted(n: nat)
    requires n > 0
    ensures var value: seq<u8> := seq(n, i requires 0 <= i < n => 0xab);
            ParsesTo(LowerCase(n), value) && ValueString(value) != LowerCase(n)
  {
    var value: seq<u8> := seq(n, i requires 0 <= i < n => 0xab);
    assert LowerCase(n)[0] == 97 && !CanonicalAt(LowerCase(n), 0);
    ParsePrintExactly(LowerCase(n), value);
  }

  function LowerCase(n: nat): Text
    requires n > 0
  {
    seq(3 * n - 1, i requires 0 <= i < 3 * n - 1 => if i % 3 == 0 then 97 else if i % 3 == 1 then 98 else COLON)
  }

  lemma CanonicalPrints(text: Text, value: seq<u8>)
    requires value != [] && ParsesTo(text, value) && Canonical(text, |value|)
    ensures ValueString(value) == text
  {
    ValueStringLength(value);
    forall j | 0 <= j < |text|
      ensures ValueString(value)[j] == text[j]
    {
      var i := j / 3;
      ValueStringAt(value, i);
      assert PairAt(text, i) == Some(value[i]) && CanonicalAt(text, i);
      PairDigits(text[3 * i], text[3 * i + 1], value[i]);
      SameChar(ValueString(value), text, j, value[i]);
    }
  }

  lemma SameChar(a: Text, b: Text, j: nat, byte: u8)
    requires |a| == |b| && j < |a| && PrintsAt(a, j / 3, byte) && PrintsAt(b, j / 3, byte)
    ensures a[j] == b[j]
  {
    assert j == 3 * (j / 3) || j == 3 * (j / 3) + 1 || j == 3 * (j / 3) + 2;
  }

  lemma PairDigits(a: u8, b: u8, byte: u8)
    requires UpperHex(a) && UpperHex(b) && ByteOf(a, b) == Some(byte)
    ensures HexDigit(byte / 16) == a && HexDigit(byte % 16) == b
  {
    UpperDigit(a);
    UpperDigit(b);
    assert byte / 16 == DigitValue(a) && byte % 16 == DigitValue(b);
  }

  lemma UpperDigit(c: u8)
    requires UpperHex(c)
    ensures 0 <= DigitValue(c) < 16 && HexDigit(DigitValue(c)) == c
  {
  }
}
