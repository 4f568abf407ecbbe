/** `clean_document`: strips a CPF/CNPJ cell to its digits and classifies it by length. */
module Documents {
  import opened Wrappers
  import opened Text
  import opened Frames

  /** Person type of an 11-digit number (CPF). */
  const PERSON: string := "F"
  /** Person type of a 14-digit number (CNPJ). */
  const COMPANY: string := "J"
  /** Person type of any other number. */
  const UNKNOWN: string := ""

  /** `clean_document(doc)`: the pair (digits, person type). */
  function CleanDocument(doc: Cell): (r: (string, string))
    ensures doc.None? || IsBlank(doc.value) ==> r == ("", UNKNOWN)
    ensures doc.Some? ==> r.0 == Digits(doc.value)
    ensures r.1 == PERSON <==> |r.0| == 11
    ensures r.1 == COMPANY <==> |r.0| == 14
    ensures r.1 == UNKNOWN <==> |r.0| != 11 && |r.0| != 14
  {
    if doc.None? then ("", UNKNOWN)
    else if IsBlank(doc.value) then
      DigitsOfBlank(doc.value);
      ("", UNKNOWN)
    else
      var clean := Digits(doc.value);
      if |clean| == 11 then (clean, PERSON)
      else if |clean| == 14 then (clean, COMPANY)
      else (clean, UNKNOWN)
  }

  /** The returned digits are only digits, whatever the input. */
  lemma CleanDocumentDigitsOnly(doc: Cell)
    ensures forall k :: 0 <= k < |CleanDocument(doc).0| ==> IsDigit(CleanDocument(doc).0[k])
  {
  }

  /**
   * The blank test decides nothing: a blank text has no digits, so every
   * present cell gets the classification of its digits.
   */
  lemma BlankGuardRedundant(s: string)
    ensures CleanDocument(Some(s)) ==
      (Digits(s), if |Digits(s)| == 11 then PERSON else if |Digits(s)| == 14 then COMPANY else UNKNOWN)
  {
    if IsBlank(s) {
      DigitsOfBlank(s);
    }
  }

  /** Cleaning the cleaned digits again gives back the same pair. */
  lemma CleanDocumentIdempotent(doc: Cell)
    ensures CleanDocument(Some(CleanDocument(doc).0)) == CleanDocument(doc)
  {
    var d := CleanDocument(doc).0;
    DigitsOfDigitString(d);
    BlankGuardRedundant(d);
  }

  /** A missing cell and its `astype(str)` text are cleaned alike. */
  lemma MissingCellAsText()
    ensures CleanDocument(Some(AsText(None))) == CleanDocument(None)
  {
    BlankGuardRedundant(MISSING_TEXT);
  }

  /**
   * A formatted CPF is a person. The text is a parameter pinned by `requires`, so that the solver does not unfold the functions applied to a literal.
   */
  lemma CpfExample(s: string)
    requires s == "123.456.789-09"
    ensures CleanDocument(Some(s)) == ("12345678909", PERSON)
  {
    var p1, p2, p3, p4 := "123", "456", "789", "09";
    var s3 := p3 + "-" + p4;
    var s2 := p2 + "." + s3;
    assert s == p1 + "." + s2;
    DigitsOfDigitString(p4);
    DigitsAcrossSeparator(p3, "-", p4);
    DigitsAcrossSeparator(p2, ".", s3);
    DigitsAcrossSeparator(p1, ".", s2);
    assert Digits(s) == p1 + (p2 + (p3 + p4)) == "12345678909";
    assert |CleanDocument(Some(s)).0| == 11;
  }

  /**
   * A cell with no digits is unknown. The text is a parameter pinned by `requires`, so that the solver does not unfold the functions applied to a literal.
   */
  lemma NoDigitsExample(s: string)
    requires s == "abc"
    ensures CleanDocument(Some(s)) == ("", UNKNOWN)
  {
    assert |s| == 3 && s[0] == 'a' && s[1] == 'b' && s[2] == 'c';
    DigitsOfNonDigits(s);
    BlankGuardRedundant(s);
  }
}
