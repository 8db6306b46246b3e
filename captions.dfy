/**
 * build_prediction_caption: an image's file stem `difficulty_whole_fraction`
 * becomes the caption sent with it, or the translated default text when the
 * stem does not have that shape.
 */
module Captions {
  import Text
  import opened Translations

  /**
   * The caption. A well-formed stem selects the `prediction_format` template
   * with its two named fields, which str.format then fills in; any other stem
   * gives the `prediction_default` text.
   */
  datatype Caption =
    | Plain(text: string)
    | Formatted(template: string, difficulty: string, value: string)

  const StemSeparator: char := '_'

  /** At least three fields, the second and third made only of digits (so non-empty). */
  predicate WellFormed(parts: seq<string>)
  {
    |parts| >= 3 && Text.IsDigits(parts[1]) && Text.IsDigits(parts[2])
  }

  /** difficulty_raw.replace("-", " ").replace("_", " ").title() */
  function DifficultyLabel(raw: string): (r: string)
    ensures |r| == |raw|
  {
    Text.Title(Text.ReplaceChar(Text.ReplaceChar(raw, '-', ' '), '_', ' '))
  }

  /** f"{int(first_num)}.{after_dot}" */
  function ValueText(whole: string, fraction: string): (r: string)
    requires Text.IsDigits(whole)
    ensures r == Text.DropLeadingZeros(whole) + "." + fraction
  {
    Text.ReprintDropsLeadingZeros(whole);
    Text.NatToDecimal(Text.DigitsValue(whole)) + "." + fraction
  }

  /** build_prediction_caption on the file stem. */
  function PredictionCaption(stem: string, catalog: Catalog, language: string): (c: Caption)
    ensures c.Plain? <==> !WellFormed(Text.Split(stem, StemSeparator))
    ensures c.Plain? ==> c.text == T(catalog, language, "prediction_default")
    ensures c.Formatted? ==> c.template == T(catalog, language, "prediction_format")
    ensures c.Formatted? ==> var parts := Text.Split(stem, StemSeparator);
              && c.difficulty == DifficultyLabel(parts[0])
              && c.value == Text.DropLeadingZeros(parts[1]) + "." + parts[2]
  {
    var parts := Text.Split(stem, StemSeparator);
    if |parts| < 3 then Plain(T(catalog, language, "prediction_default"))
    else
      var difficultyRaw, firstNum, afterDot := parts[0], parts[1], parts[2];
      if !(Text.IsDigits(firstNum) && Text.IsDigits(afterDot)) then Plain(T(catalog, language, "prediction_default"))
      else Formatted(T(catalog, language, "prediction_format"), DifficultyLabel(difficultyRaw), ValueText(firstNum, afterDot))
  }

  /**
   * The second replace has nothing to do, since a field of the split never
   * holds the separator: the label is the title-cased field with dashes read
   * as spaces.
   */
  lemma DifficultyIsTitledField(stem: string)
    ensures var raw := Text.Split(stem, StemSeparator)[0];
            DifficultyLabel(raw) == Text.Title(Text.ReplaceChar(raw, '-', ' '))
  {
    var raw := Text.Split(stem, StemSeparator)[0];
    var once := Text.ReplaceChar(raw, '-', ' ');
    assert Text.ReplaceChar(once, '_', ' ') == once;
  }

  /** The label keeps neither dashes nor underscores. */
  lemma DifficultyHasNoSeparators(raw: string)
    ensures forall i :: 0 <= i < |raw| ==> DifficultyLabel(raw)[i] != '-' && DifficultyLabel(raw)[i] != '_'
  {
    var spaced := Text.ReplaceChar(Text.ReplaceChar(raw, '-', ' '), '_', ' ');
    var titled := DifficultyLabel(raw);
    assert titled == Text.TitleAfter(spaced, false);
    forall i | 0 <= i < |raw| ensures titled[i] != '-' && titled[i] != '_' {
      assert spaced[i] != '-' && spaced[i] != '_';
      var afterLetter := if i == 0 then false else Text.IsAsciiLetter(spaced[i - 1]);
      assert titled[i] == if afterLetter then Text.ToLower(spaced[i]) else Text.ToUpper(spaced[i]);
    }
  }

  /** Only the first three fields count: anything appended after a well-formed stem is ignored. */
  lemma CaptionIgnoresExtraParts(stem: string, extra: string, catalog: Catalog, language: string)
    requires |Text.Split(stem, StemSeparator)| >= 3
    ensures PredictionCaption(stem + [StemSeparator] + extra, catalog, language)
            == PredictionCaption(stem, catalog, language)
  {
    Text.SplitConcat(stem, extra, StemSeparator);
    var parts := Text.Split(stem, StemSeparator);
    var longer := Text.Split(stem + [StemSeparator] + extra, StemSeparator);
    assert longer[0] == parts[0] && longer[1] == parts[1] && longer[2] == parts[2];
  }

  /** Three fields without an underscore, joined by underscores, split back into those three. */
  lemma ThreeFields(a: string, b: string, c: string)
    requires StemSeparator !in a && StemSeparator !in b && StemSeparator !in c
    ensures Text.Split(a + [StemSeparator] + b + [StemSeparator] + c, StemSeparator) == [a, b, c]
  {
    Text.SplitWithoutSeparator(a, StemSeparator);
    Text.SplitWithoutSeparator(b, StemSeparator);
    Text.SplitWithoutSeparator(c, StemSeparator);
    Text.SplitConcat(a + [StemSeparator] + b, c, StemSeparator);
    Text.SplitConcat(a, b, StemSeparator);
  }

  /**
   * A stem written from a difficulty and two digit strings reads back as
   * those three: the value is the whole part without its leading zeros, a
   * dot, then the fraction digits exactly as written.
   */
  lemma DigitStem(difficulty: string, whole: string, fraction: string, catalog: Catalog, language: string)
    requires StemSeparator !in difficulty && Text.IsDigits(whole) && Text.IsDigits(fraction)
    ensures var stem := difficulty + [StemSeparator] + whole + [StemSeparator] + fraction;
            PredictionCaption(stem, catalog, language)
            == Formatted(T(catalog, language, "prediction_format"),
                         Text.Title(Text.ReplaceChar(difficulty, '-', ' ')),
                         Text.DropLeadingZeros(whole) + "." + fraction)
  {
    assert forall k :: 0 <= k < |whole| ==> Text.IsAsciiDigit(whole[k]);
    assert StemSeparator !in whole;
    assert forall k :: 0 <= k < |fraction| ==> Text.IsAsciiDigit(fraction[k]);
    assert StemSeparator !in fraction;
    ThreeFields(difficulty, whole, fraction);
    var once := Text.ReplaceChar(difficulty, '-', ' ');
    assert Text.ReplaceChar(once, '_', ' ') == once;
  }

  /** A stem whose number is printed by str() reads back with that number unchanged. */
  lemma ComposedStem(difficulty: string, whole: nat, fraction: string, catalog: Catalog, language: string)
    requires StemSeparator !in difficulty && Text.IsDigits(fraction)
    ensures var stem := difficulty + [StemSeparator] + Text.NatToDecimal(whole) + [StemSeparator] + fraction;
            PredictionCaption(stem, catalog, language)
            == Formatted(T(catalog, language, "prediction_format"),
                         Text.Title(Text.ReplaceChar(difficulty, '-', ' ')),
                         Text.NatToDecimal(whole) + "." + fraction)
  {
    var w := Text.NatToDecimal(whole);
    assert Text.DropLeadingZeros(w) == w;
    DigitStem(difficulty, w, fraction, catalog, language);
  }

  /** Zeros padding the whole part change nothing: `hard_007_05` reads like `hard_7_05`, as 7.05. */
  lemma ZeroPaddingIgnored(difficulty: string, whole: string, fraction: string, catalog: Catalog, language: string)
    requires StemSeparator !in difficulty && Text.IsDigits(whole) && Text.IsDigits(fraction)
    ensures PredictionCaption(difficulty + [StemSeparator] + ("0" + whole) + [StemSeparator] + fraction, catalog, language)
            == PredictionCaption(difficulty + [StemSeparator] + whole + [StemSeparator] + fraction, catalog, language)
  {
    var padded := "0" + whole;
    assert padded[1..] == whole;
    assert Text.IsDigits(padded);
    assert Text.DropLeadingZeros(padded) == Text.DropLeadingZeros(whole);
    DigitStem(difficulty, padded, fraction, catalog, language);
    DigitStem(difficulty, whole, fraction, catalog, language);
  }

  /** A stem with fewer than two separators always gives the default text. */
  lemma ShortStemIsPlain(stem: string, catalog: Catalog, language: string)
    requires Text.Count(stem, StemSeparator) < 2
    ensures PredictionCaption(stem, catalog, language) == Plain(T(catalog, language, "prediction_default"))
  {
    Text.SplitCount(stem, StemSeparator);
  }
}
