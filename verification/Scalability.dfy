/** Scalability modes such as `L3T2`: spatial and temporal layers in a text. */
module Scalability {
  import opened Common

  datatype Layers = Layers(spatial: nat, temporal: nat)

  predicate Digit(c: char) { '0' <= c <= '9' }

  /** A number of one or two digits that does not start with zero, read greedily at `i`, and where it ends. */
  function ReadNumber(s: string, i: nat): Option<(nat, nat)> {
    if i >= |s| || !Digit(s[i]) || s[i] == '0' then None
    else if i + 1 < |s| && Digit(s[i + 1]) then Some((10 * Value(s[i]) + Value(s[i + 1]), i + 2))
    else Some((Value(s[i]), i + 1))
  }

  function Value(c: char): nat
    requires Digit(c)
  {
    c as int - '0' as int
  }

  /** `L` or `S`, the spatial layers, `T`, the temporal layers; what follows does not matter. */
  function ParseMode(s: string): (r: Option<Layers>)
    ensures r.Some? ==> 1 <= r.value.spatial <= 99 && 1 <= r.value.temporal <= 99
  {
    if s == [] || !(s[0] == 'L' || s[0] == 'S') then None else
    var spatial := ReadNumber(s, 1);
    if spatial.None? || spatial.value.1 >= |s| || s[spatial.value.1] != 'T' then None else
    var temporal := ReadNumber(s, spatial.value.1 + 1);
    if temporal.None? then None else Some(Layers(spatial.value.0, temporal.value.0))
  }

  /** A text that is no scalability mode stands for a single layer. */
  function TemporalLayers(s: string): (n: nat)
    ensures 1 <= n <= 99
  {
    if ParseMode(s).Some? then ParseMode(s).value.temporal else 1
  }

  function Decimal(n: nat): string {
    if n < 10 then [DigitOf(n)] else Decimal(n / 10) + [DigitOf(n % 10)]
  }

  function DigitOf(n: nat): (c: char)
    requires n < 10
    ensures Digit(c) && Value(c) == n
  {
    n as char + '0'
  }

  function PrintMode(spatial: nat, temporal: nat): string {
    "L" + Decimal(spatial) + "T" + Decimal(temporal)
  }

  /** The text of a number that is no more than two digits long. */
  lemma ShortDecimal(n: nat)
    requires 1 <= n <= 99
    ensures Decimal(n) == if n < 10 then [DigitOf(n)] else [DigitOf(n / 10), DigitOf(n % 10)]
  {
    if n >= 10 {
      assert Decimal(n / 10) == [DigitOf(n / 10)];
    }
  }

  lemma {:induction false} LongDecimal(n: nat)
    requires n > 99
    ensures |Decimal(n)| >= 3 && Decimal(n)[0] != '0' && forall i :: 0 <= i < |Decimal(n)| ==> Digit(Decimal(n)[i])
  {
    if n / 10 <= 99 {
      ShortDecimal(n / 10);
    } else {
      LongDecimal(n / 10);
    }
  }

  /** A number printed into a text is read back, if no digit follows. */
  lemma ReadPrinted(s: string, i: nat, n: nat)
    requires 1 <= n <= 99 && i + |Decimal(n)| <= |s| && s[i..i + |Decimal(n)|] == Decimal(n)
    requires i + |Decimal(n)| < |s| ==> !Digit(s[i + |Decimal(n)|])
    ensures ReadNumber(s, i) == Some((n, i + |Decimal(n)|))
  {
    ShortDecimal(n);
    assert s[i] == Decimal(n)[0];
    if n >= 10 {
      assert s[i + 1] == Decimal(n)[1];
    }
  }

  /** The digits of a number below 100, without leading zeros. */
  ghost predicate Digits(s: string, n: nat) {
    || (|s| == 1 && '1' <= s[0] <= '9' && n == s[0] as int - '0' as int)
    || (|s| == 2 && '1' <= s[0] <= '9' && '0' <= s[1] <= '9'
        && n == 10 * (s[0] as int - '0' as int) + (s[1] as int - '0' as int))
  }

  /** `s` is a mode: a letter, the spatial layers, `T`, the temporal layers, and a rest. */
  ghost predicate IsMode(s: string, letter: char, spatial: nat, temporal: nat, rest: string) {
    exists a: string, b: string :: Digits(a, spatial) && Digits(b, temporal) && s == [letter] + a + "T" + b + rest
  }

  /** The temporal layers are read greedily: two digits are never split. */
  ghost predicate Ends(temporal: nat, rest: string) {
    temporal < 10 ==> rest == [] || !('0' <= rest[0] <= '9')
  }

  /** Exactly the texts of that form are modes, whatever follows, with these layers. */
  lemma ParseModeExactly(s: string, layers: Layers)
    ensures ParseMode(s) == Some(layers) <==>
            exists letter, rest :: (letter == 'L' || letter == 'S') && Ends(layers.temporal, rest)
                                   && IsMode(s, letter, layers.spatial, layers.temporal, rest)
    ensures ParseMode(s) == Some(layers) ==> TemporalLayers(s) == layers.temporal
    ensures ParseMode(s) == None ==> TemporalLayers(s) == 1
  {
    if ParseMode(s) == Some(layers) {
      var letter, rest := Split(s, layers);
    }
    if letter, rest :| (letter == 'L' || letter == 'S') && Ends(layers.temporal, rest)
                       && IsMode(s, letter, layers.spatial, layers.temporal, rest) {
      var a: string, b: string :| && Digits(a, layers.spatial) && Digits(b, layers.temporal)
                                  && s == [letter] + a + "T" + b + rest;
      Joined(s, letter, a, b, rest, layers);
    }
  }

  /** The parts of a mode. */
  lemma Split(s: string, layers: Layers) returns (letter: char, rest: string)
    requires ParseMode(s) == Some(layers)
    ensures (letter == 'L' || letter == 'S') && Ends(layers.temporal, rest)
    ensures IsMode(s, letter, layers.spatial, layers.temporal, rest)
  {
    letter := s[0];
    var i := ReadNumber(s, 1).value.1;
    var j := ReadNumber(s, i + 1).value.1;
    rest := s[j..];
    var a, b := s[1..i], s[i + 1..j];
    assert Digits(a, layers.spatial) && Digits(b, layers.temporal);
    assert s == [letter] + a + "T" + b + rest;
  }

  lemma Joined(s: string, letter: char, a: string, b: string, rest: string, layers: Layers)
    requires (letter == 'L' || letter == 'S') && Ends(layers.temporal, rest)
    requires Digits(a, layers.spatial) && Digits(b, layers.temporal) && s == [letter] + a + "T" + b + rest
    ensures ParseMode(s) == Some(layers)
  {
    var i := 1 + |a|;
    assert s[0] == letter && s[1..i] == a && s[i] == 'T' && s[i + 1..i + 1 + |b|] == b && s[i + 1 + |b|..] == rest;
    assert s[1] == a[0] && s[i + 1] == b[0];
    assert |a| == 2 ==> s[2] == a[1];
    assert |b| == 2 ==> s[i + 2] == b[1];
    assert |b| == 1 && rest != [] ==> s[i + 2] == rest[0];
  }

  /** A printed mode has the letter `L` and nothing behind it. */
  lemma PrintsMode(spatial: nat, temporal: nat)
    requires 1 <= spatial <= 99 && 1 <= temporal <= 99
    ensures IsMode(PrintMode(spatial, temporal), 'L', spatial, temporal, "")
  {
    ShortDecimal(spatial);
    ShortDecimal(temporal);
    var a, b := Decimal(spatial), Decimal(temporal);
    assert Digits(a, spatial) && Digits(b, temporal);
    assert PrintMode(spatial, temporal) == ['L'] + a + "T" + b + "";
  }

  /** Reading a printed mode gives back its layers exactly when there are no more than 99 spatial ones; no text with
      more of them is a scalability mode. */
  lemma PrintParseExactly(spatial: nat, temporal: nat)
    requires spatial >= 1 && 1 <= temporal <= 99
    ensures ParseMode(PrintMode(spatial, temporal)) == if spatial <= 99 then Some(Layers(spatial, temporal)) else None
  {
    var s, d, t := PrintMode(spatial, temporal), Decimal(spatial), Decimal(temporal);
    assert s[0] == 'L' && s[1..1 + |d|] == d && s[1 + |d|] == 'T' && s[2 + |d|..2 + |d| + |t|] == t;
    if spatial <= 99 {
      ReadPrinted(s, 1, spatial);
      ReadPrinted(s, 2 + |d|, temporal);
    } else {
      LongDecimal(spatial);
      assert s[1] == d[0] && s[2] == d[1] && s[3] == d[2];
    }
  }
}
