/**
 * The three metadata fields under the canvas: version, size and mask.
 * `setMeta` shows a symbol's attributes, `resetMeta` shows placeholders.
 */
module Meta {

  import opened Wrappers
  import opened Text
  import opened Symbol

  /** The en dash every field shows when there is no symbol. */
  const Placeholder: string := "\U{2013}"

  /** The separator of the size field, `" × "`. */
  const Times: string := " \U{00D7} "

  datatype MetaFields = MetaFields(version: string, size: string, mask: string)

  /** `` `${qr.size} × ${qr.size}` ``. */
  function SizeText(n: nat): string
  {
    NatToDecimal(n) + Times + NatToDecimal(n)
  }

  /**
   * Reads a size field back: a decimal, the separator, and the same
   * decimal again.
   */
  function ParseSizeText(t: string): Option<nat>
  {
    var k := DigitRun(t);
    var rest := t[k..];
    if 0 < k && |rest| > |Times| && rest[..|Times|] == Times && AllDigits(rest[|Times|..])
       && DecimalValue(t[..k]) == DecimalValue(rest[|Times|..])
    then Some(DecimalValue(t[..k]))
    else None
  }

  /** The size field of a symbol of side `n` reads back as `n`. */
  lemma SizeTextRoundTrip(n: nat)
    ensures ParseSizeText(SizeText(n)) == Some(n)
  {
    var d := NatToDecimal(n);
    var t := SizeText(n);
    assert t[..|d|] == d;
    assert t[|d|..][..|Times|] == Times;
    assert t[|d|..][|Times|..] == d;
    DigitRunOfPrefix(d, Times + d);
    assert t == d + (Times + d);
  }

  /** A digit run stops where the digits stop. */
  lemma {:induction false} DigitRunOfPrefix(d: string, rest: string)
    requires AllDigits(d) && |rest| > 0 && !IsDigit(rest[0])
    ensures DigitRun(d + rest) == |d|
  {
    if d != [] {
      assert (d + rest)[1..] == d[1..] + rest;
      DigitRunOfPrefix(d[1..], rest);
    }
  }

  /** `t` is the size field of a symbol of side `n`: `"n × n"`, canonically spelt. */
  predicate ShowsSize(t: string, n: nat)
  {
    var k := DigitRun(t);
    && Canonical(t[..k])
    && DecimalValue(t[..k]) == n
    && t == t[..k] + Times + t[..k]
  }

  /** `SizeText` spells the size canonically on both sides of the separator. */
  lemma SizeTextShowsSize(n: nat)
    ensures ShowsSize(SizeText(n), n)
  {
    var d := NatToDecimal(n);
    var t := SizeText(n);
    DigitRunOfPrefix(d, Times + d);
    assert t == d + (Times + d);
    assert t[..|d|] == d;
  }

  /**
   * `setMeta(qr)`: each field shows the symbol's own number as JavaScript
   * prints it, the version and mask as decimals and the size as `"n × n"`.
   */
  function SetMeta(q: QrCode): (m: MetaFields)
    ensures Canonical(m.version) && DecimalValue(m.version) == q.version
    ensures Canonical(m.mask) && DecimalValue(m.mask) == q.mask
    ensures ShowsSize(m.size, q.size)
    ensures ParseDecimal(m.version) == Some(q.version)
    ensures ParseDecimal(m.mask) == Some(q.mask)
    ensures ParseSizeText(m.size) == Some(q.size)
  {
    SizeTextRoundTrip(q.size);
    SizeTextShowsSize(q.size);
    MetaFields(NatToDecimal(q.version), SizeText(q.size), NatToDecimal(q.mask))
  }

  /** Only one set of field texts shows a symbol: the spelling is fixed, not just the numbers. */
  lemma MetaSpellingUnique(m: MetaFields, q: QrCode)
    requires Canonical(m.version) && DecimalValue(m.version) == q.version
    requires Canonical(m.mask) && DecimalValue(m.mask) == q.mask
    requires ShowsSize(m.size, q.size)
    ensures m == SetMeta(q)
  {
    var r := SetMeta(q);
    CanonicalUnique(m.version, r.version);
    CanonicalUnique(m.mask, r.mask);
    var k, j := DigitRun(m.size), DigitRun(r.size);
    CanonicalUnique(m.size[..k], r.size[..j]);
  }

  /**
   * `resetMeta()`: every field shows the placeholder, which reads as no
   * number at all.
   */
  function ResetMeta(): (m: MetaFields)
    ensures m.version == Placeholder && m.size == Placeholder && m.mask == Placeholder
    ensures ParseDecimal(m.version) == None && ParseDecimal(m.mask) == None
    ensures ParseSizeText(m.size) == None
  {
    assert !IsDigit(Placeholder[0]);
    MetaFields(Placeholder, Placeholder, Placeholder)
  }

  /** The placeholder fields never coincide with those of a shown symbol. */
  lemma PlaceholderNeverShown(q: QrCode)
    ensures ResetMeta() != SetMeta(q)
  {
    assert SetMeta(q).version != Placeholder by {
      assert IsDigit(SetMeta(q).version[0]);
      assert !IsDigit(Placeholder[0]);
    }
  }
}
