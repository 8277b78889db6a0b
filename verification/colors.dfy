/** The colour key of the game: `createColor` turns a channel triple into the
    CSS string "rgb(r,g,b)", and a raven is identified by that string when the
    player clicks.  Channels are non-negative integers (canvas pixel data are
    bytes, raven channels are floors of non-negative numbers), so the decimal
    rendering below is JavaScript's `String(n)` for a non-negative integer. */
module Colors {

  /** The three channels of a colour, in the order red, green, blue. */
  datatype Rgb = Rgb(red: nat, green: nat, blue: nat)

  predicate IsDigit(c: char) {
    '0' <= c <= '9'
  }

  function DigitChar(d: nat): (c: char)
    requires d < 10
    ensures IsDigit(c) && DigitValue(c) == d
  {
    ('0' as int + d) as char
  }

  function DigitValue(c: char): int {
    c as int - '0' as int
  }

  /** The decimal digits of `n`, most significant first, without leading zeros. */
  function Decimal(n: nat): string {
    if n < 10 then [DigitChar(n)] else Decimal(n / 10) + [DigitChar(n % 10)]
  }

  /** Reads a string of digits back as a number (most significant digit first). */
  function DecimalValue(s: string): int {
    if s == [] then 0 else DecimalValue(s[..|s| - 1]) * 10 + DigitValue(s[|s| - 1])
  }

  /** Reading the decimal rendering of `n` gives back `n`. */
  lemma {:induction false} DecimalRoundTrip(n: nat)
    ensures DecimalValue(Decimal(n)) == n
  {
    var s := Decimal(n);
    if n >= 10 {
      DecimalRoundTrip(n / 10);
      assert s[..|s| - 1] == Decimal(n / 10);
    }
  }

  /** Two numbers with the same rendering are equal. */
  lemma DecimalInjective(m: nat, n: nat)
    ensures Decimal(m) == Decimal(n) <==> m == n
  {
    DecimalRoundTrip(m);
    DecimalRoundTrip(n);
  }

  /** The string of app.js `createColor(r, g, b)`. */
  function CreateColor(r: nat, g: nat, b: nat): string {
    "rgb(" + Decimal(r) + "," + Decimal(g) + "," + Decimal(b) + ")"
  }

  /** The colour string of a channel triple. */
  function ColorOf(c: Rgb): string {
    CreateColor(c.red, c.green, c.blue)
  }

  /** Where the separator of a shorter prefix sits in the other concatenation. */
  lemma SeparatorAt(a: string, b: string, a': string, b': string, sep: char)
    ensures |a| < |a'| ==> (a + [sep] + b)[|a|] == sep && (a' + [sep] + b')[|a|] == a'[|a|]
  {
  }

  /** A separator that occurs in neither prefix splits both sides at the same place. */
  lemma SplitAtSeparator(a: string, b: string, a': string, b': string, sep: char)
    requires forall i :: 0 <= i < |a| ==> a[i] != sep
    requires forall i :: 0 <= i < |a'| ==> a'[i] != sep
    requires a + [sep] + b == a' + [sep] + b'
    ensures a == a' && b == b'
  {
    var s := a + [sep] + b;
    if |a| < |a'| {
      SeparatorAt(a, b, a', b', sep);
      assert false;
    } else if |a'| < |a| {
      SeparatorAt(a', b', a, b, sep);
      assert false;
    }
    assert a == s[..|a|] == a';
    assert b == s[|a| + 1..] == b';
  }

  /** The rendering is a non-empty string of digits. */
  lemma {:induction false} DecimalDigits(n: nat)
    ensures |Decimal(n)| >= 1
    ensures forall i :: 0 <= i < |Decimal(n)| ==> IsDigit(Decimal(n)[i])
  {
    if n >= 10 {
      DecimalDigits(n / 10);
    }
  }

  lemma DecimalHasNo(n: nat, sep: char)
    requires !IsDigit(sep)
    ensures forall i :: 0 <= i < |Decimal(n)| ==> Decimal(n)[i] != sep
  {
    DecimalDigits(n);
  }

  /** The part of the colour string after "rgb(". */
  function Channels(r: nat, g: nat, b: nat): string {
    Decimal(r) + [','] + (Decimal(g) + [','] + (Decimal(b) + [')']))
  }

  lemma CreateColorChannels(r: nat, g: nat, b: nat)
    ensures CreateColor(r, g, b) == "rgb(" + Channels(r, g, b)
  {
  }

  /** The channels are read back from the part after "rgb(": each decimal ends
      at the next separator. */
  lemma ChannelsInjective(r: nat, g: nat, b: nat, r': nat, g': nat, b': nat)
    requires Channels(r, g, b) == Channels(r', g', b')
    ensures r == r' && g == g' && b == b'
  {
    DecimalHasNo(r, ',');
    DecimalHasNo(r', ',');
    SplitAtSeparator(Decimal(r), Decimal(g) + [','] + (Decimal(b) + [')']),
                     Decimal(r'), Decimal(g') + [','] + (Decimal(b') + [')']), ',');
    DecimalHasNo(g, ',');
    DecimalHasNo(g', ',');
    SplitAtSeparator(Decimal(g), Decimal(b) + [')'], Decimal(g'), Decimal(b') + [')'], ',');
    assert Decimal(b) == (Decimal(b) + [')'])[..|Decimal(b)|];
    assert Decimal(b') == (Decimal(b') + [')'])[..|Decimal(b')|];
    DecimalInjective(r, r');
    DecimalInjective(g, g');
    DecimalInjective(b, b');
  }

  /** `createColor` is injective: two colour strings are equal exactly when the
      channel triples are, so comparing strings in the click handler compares
      the triples. */
  lemma CreateColorInjective(r: nat, g: nat, b: nat, r': nat, g': nat, b': nat)
    ensures CreateColor(r, g, b) == CreateColor(r', g', b') <==> r == r' && g == g' && b == b'
  {
    if CreateColor(r, g, b) == CreateColor(r', g', b') {
      var s := CreateColor(r, g, b);
      CreateColorChannels(r, g, b);
      CreateColorChannels(r', g', b');
      assert Channels(r, g, b) == s[4..] == Channels(r', g', b');
      ChannelsInjective(r, g, b, r', g', b');
    }
  }

  /** The same fact for triples. */
  lemma ColorOfInjective(c: Rgb, c': Rgb)
    ensures ColorOf(c) == ColorOf(c') <==> c == c'
  {
    CreateColorInjective(c.red, c.green, c.blue, c'.red, c'.green, c'.blue);
  }
}
