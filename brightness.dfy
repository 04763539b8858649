/** Brightness levels as the forms show them: a track bar and a progress bar
    whose range is 0..100, a step of 5 per hotkey press, and the label text
    "Brightness: N%". */
module Brightness {
  import opened Wrappers
  import opened Decimal

  /** `Minimum` and `Maximum` of the brightness track bar and of the OSD progress bar. */
  const MinLevel: int := 0
  const MaxLevel: int := 100

  /** The amount one hotkey press moves the track bar. */
  const Step: int := 5

  predicate InRange(v: int) { MinLevel <= v <= MaxLevel }

  /** `Math.Clamp(v, lo, hi)`. */
  function Clamp(v: int, lo: int, hi: int): (r: int)
    requires lo <= hi
    ensures lo <= r <= hi
    ensures lo <= v <= hi ==> r == v
    ensures v < lo ==> r == lo
    ensures hi < v ==> r == hi
  {
    if v < lo then lo else if hi < v then hi else v
  }

  /** Clamping to the track-bar range: in range, and a value already in range is kept. */
  function ClampLevel(v: int): (r: int)
    ensures InRange(r)
    ensures InRange(v) ==> r == v
  {
    Clamp(v, MinLevel, MaxLevel)
  }

  const LabelPrefix: string := "Brightness: "
  const LabelSuffix: string := "%"

  /** The text `$"Brightness: {n}%"`. */
  function LabelText(n: int): string
  {
    LabelPrefix + FormatInt(n) + LabelSuffix
  }

  /** Reads a level back out of a label text (the inverse of `LabelText`). */
  function LabelLevel(text: string): Option<int>
  {
    if |text| >= |LabelPrefix| + |LabelSuffix| && text[..|LabelPrefix|] == LabelPrefix
       && text[|text| - |LabelSuffix|..] == LabelSuffix
    then
      match ParseInt64(text[|LabelPrefix|..|text| - |LabelSuffix|])
      case Success(v) => Some(v as int)
      case Failure(_) => None
    else None
  }

  /** The label shows exactly the level it was built from. */
  lemma LabelRoundTrip(n: Int64)
    ensures LabelLevel(LabelText(n)) == Some(n as int)
  {
    var text := LabelText(n);
    assert text[..|LabelPrefix|] == LabelPrefix;
    assert text[|text| - |LabelSuffix|..] == LabelSuffix;
    assert text[|LabelPrefix|..|text| - |LabelSuffix|] == FormatInt(n);
    ParseFormatRoundTrip(n);
  }

  /** Two different levels never produce the same label. */
  lemma LabelTextInjective(a: Int64, b: Int64)
    requires LabelText(a) == LabelText(b)
    ensures a == b
  {
    LabelRoundTrip(a);
    LabelRoundTrip(b);
  }
}
