/**
 * The two prompt pickers. Prompt bodies are long fixed texts; the model names
 * each by the document kind it is written for.
 */
module OcrPrompts {
  import opened Wrappers
  import opened Strings

  /** The prompt kinds of the OCR prompt table. */
  datatype Prompt = Medicine | Janzour | Massara | IdCard | Receipt | Default

  const MedicinePhrase: string := "أدوية ومستلزمات"
  const ReceiptPhrase: string := "إيصال رقم"

  /** Calling `lower()` on a missing keyword. */
  datatype PromptError = NoLowerOnNone

  /**
   * `get_prompt_by_keyword`: the keyword is lowercased, then the first of
   * these tests that holds decides: the medicine phrase occurs, "janzour"
   * occurs, it is exactly "massara", it is exactly "idcard", the receipt
   * phrase occurs; otherwise the default prompt.
   */
  function PromptFor(keyword: Option<string>): (r: Result<Prompt, PromptError>)
    ensures r.Err? <==> keyword.None?
    ensures keyword.Some? ==> var k := ToLower(keyword.value);
      (r == Ok(Medicine) <==> Contains(k, MedicinePhrase)) &&
      (r == Ok(Janzour) <==> !Contains(k, MedicinePhrase) && Contains(k, "janzour")) &&
      (r == Ok(Massara) <==> !Contains(k, MedicinePhrase) && !Contains(k, "janzour") && k == "massara") &&
      (r == Ok(IdCard) <==> !Contains(k, MedicinePhrase) && !Contains(k, "janzour") && k == "idcard") &&
      (r == Ok(Receipt) <==> !Contains(k, MedicinePhrase) && !Contains(k, "janzour") && k != "massara"
                             && k != "idcard" && Contains(k, ReceiptPhrase)) &&
      (r == Ok(Default) <==> !Contains(k, MedicinePhrase) && !Contains(k, "janzour") && k != "massara"
                             && k != "idcard" && !Contains(k, ReceiptPhrase))
  {
    match keyword
    case None => Err(NoLowerOnNone)
    case Some(raw) =>
      var k := ToLower(raw);
      if Contains(k, MedicinePhrase) then Ok(Medicine)
      else if Contains(k, "janzour") then Ok(Janzour)
      else if k == "massara" then Ok(Massara)
      else if k == "idcard" then Ok(IdCard)
      else if Contains(k, ReceiptPhrase) then Ok(Receipt)
      else Ok(Default)
  }

  /** The module's prompt constants, each the picker applied to its keyword. */
  const MedicinePrompt: Result<Prompt, PromptError> := PromptFor(Some(MedicinePhrase))
  const JanzourPrompt: Result<Prompt, PromptError> := PromptFor(Some("janzour"))
  const MassaraPrompt: Result<Prompt, PromptError> := PromptFor(Some("massara"))
  const IdCardPrompt: Result<Prompt, PromptError> := PromptFor(Some("idcard"))
  const ReceiptPrompt: Result<Prompt, PromptError> := PromptFor(Some(ReceiptPhrase))

  lemma ToLowerFixed(s: string)
    requires forall i :: 0 <= i < |s| ==> !('A' <= s[i] <= 'Z')
    ensures ToLower(s) == s
  {}

  /** A keyword already in lower case is matched as it is. */
  lemma PromptOfLowercase(k: string)
    requires forall i :: 0 <= i < |k| ==> !('A' <= k[i] <= 'Z')
    ensures PromptFor(Some(k)) ==
      if Contains(k, MedicinePhrase) then Ok(Medicine)
      else if Contains(k, "janzour") then Ok(Janzour)
      else if k == "massara" then Ok(Massara)
      else if k == "idcard" then Ok(IdCard)
      else if Contains(k, ReceiptPhrase) then Ok(Receipt)
      else Ok(Default)
  {
    ToLowerFixed(k);
  }

  lemma ContainsItself(s: string)
    ensures Contains(s, s)
  {
    assert OccursAt(s, s, 0);
    ContainsAt(s, s, 0);
  }

  lemma MedicineConstant()
    ensures MedicinePrompt == Ok(Medicine)
  {
    var k := MedicinePhrase;
    PromptOfLowercase(k);
    ContainsItself(k);
  }

  lemma JanzourConstant()
    ensures JanzourPrompt == Ok(Janzour)
  {
    var k := "janzour";
    PromptOfLowercase(k);
    NotContainsForeignChar(k, MedicinePhrase, 'د');
    ContainsItself(k);
  }

  lemma MassaraConstant()
    ensures MassaraPrompt == Ok(Massara)
  {
    var k := "massara";
    PromptOfLowercase(k);
    NotContainsForeignChar(k, MedicinePhrase, 'د');
    NotContainsForeignChar(k, "janzour", 'j');
  }

  lemma IdCardConstant()
    ensures IdCardPrompt == Ok(IdCard)
  {
    var k := "idcard";
    PromptOfLowercase(k);
    NotContainsForeignChar(k, MedicinePhrase, 'د');
    NotContainsForeignChar(k, "janzour", 'j');
  }

  lemma ReceiptPhraseFacts()
    ensures forall i :: 0 <= i < |ReceiptPhrase| ==> !('A' <= ReceiptPhrase[i] <= 'Z')
    ensures 'د' !in ReceiptPhrase && 'j' !in ReceiptPhrase
    ensures ReceiptPhrase != "massara" && ReceiptPhrase != "idcard"
  {
    assert |ReceiptPhrase| == 9;
  }

  lemma ReceiptConstant()
    ensures ReceiptPrompt == Ok(Receipt)
  {
    var k := ReceiptPhrase;
    ReceiptPhraseFacts();
    PromptOfLowercase(k);
    NotContainsForeignChar(k, MedicinePhrase, 'د');
    NotContainsForeignChar(k, "janzour", 'j');
    ContainsItself(k);
  }

  /**
   * A lowercase keyword without Arabic letters or a 'j' that is neither
   * "massara" nor "idcard" gets the default prompt.
   */
  lemma DefaultForPlainKeyword(k: string)
    requires forall i :: 0 <= i < |k| ==> 'a' <= k[i] <= 'z' || k[i] == ' '
    requires 'j' !in k && k != "massara" && k != "idcard"
    ensures PromptFor(Some(k)) == Ok(Default)
  {
    PromptOfLowercase(k);
    NotContainsForeignChar(k, MedicinePhrase, MedicinePhrase[0]);
    NotContainsForeignChar(k, "janzour", 'j');
    NotContainsForeignChar(k, ReceiptPhrase, ReceiptPhrase[0]);
  }

  /** "massara medicine" is not exactly "massara", so it falls through to the default prompt. */
  lemma MassaraMedicineGetsDefault(k: string)
    requires k == "massara medicine"
    ensures PromptFor(Some(k)) == Ok(Default)
  {
    DefaultForPlainKeyword(k);
  }
}

/**
 * The page processor's own prompt picker, which the document classifiers
 * use: a missing keyword counts as "", matching is on the lowercased keyword,
 * and the first test that holds wins.
 */
module PagePrompts {
  import opened Wrappers
  import opened Strings

  datatype PagePrompt = Janzour | Massara | IdCard | Receipt | Default

  const ReceiptPhrase: string := "إيصال رقم"

  /** A membership test on a missing keyword. */
  datatype PromptError = NoMembershipOnNone

  function Lowered(keyword: Option<string>): string {
    match keyword
    case None => ""
    case Some(k) => ToLower(k)
  }

  /** The tests that come before the receipt test, on the lowered keyword. */
  function Leading(kw: string): Option<PagePrompt> {
    if Contains(kw, "janzour") then Some(Janzour)
    else if Contains(kw, "massara") then Some(Massara)
    else if kw == "idcard" || Contains(kw, "idcard") then Some(IdCard)
    else None
  }

  /**
   * As written: the receipt test looks for the Arabic phrase in the raw
   * keyword rather than the lowered one, so a missing keyword that reaches
   * it fails.
   */
  function PromptAsWritten(keyword: Option<string>): (r: Result<PagePrompt, PromptError>)
    ensures r.Err? <==> keyword.None?
  {
    var kw := Lowered(keyword);
    match Leading(kw)
    case Some(p) => Ok(p)
    case None =>
      match keyword
      case None => Err(NoMembershipOnNone)
      case Some(raw) =>
        if Contains(raw, ReceiptPhrase) || Contains(kw, "receipt") then Ok(Receipt) else Ok(Default)
  }

  /** As intended: every test is on the lowered keyword, so a missing keyword gets the default prompt. */
  function PromptFor(keyword: Option<string>): (r: PagePrompt)
    ensures keyword.None? ==> r == Default
    ensures var kw := Lowered(keyword);
      (r == Janzour <==> Contains(kw, "janzour")) &&
      (r == Massara <==> !Contains(kw, "janzour") && Contains(kw, "massara")) &&
      (r == IdCard <==> !Contains(kw, "janzour") && !Contains(kw, "massara") && Contains(kw, "idcard")) &&
      (r == Receipt <==> !Contains(kw, "janzour") && !Contains(kw, "massara") && !Contains(kw, "idcard")
                         && (Contains(kw, ReceiptPhrase) || Contains(kw, "receipt"))) &&
      (r == Default <==> !Contains(kw, "janzour") && !Contains(kw, "massara") && !Contains(kw, "idcard")
                         && !Contains(kw, ReceiptPhrase) && !Contains(kw, "receipt"))
  {
    var kw := Lowered(keyword);
    match Leading(kw)
    case Some(p) => p
    case None => if Contains(kw, ReceiptPhrase) || Contains(kw, "receipt") then Receipt else Default
  }

  /** The missing-keyword case that the code as written refuses. */
  lemma MissingKeywordFails()
    ensures PromptAsWritten(None) == Err(NoMembershipOnNone)
    ensures PromptFor(None) == Default
  {
    assert Lowered(None) == "";
  }

  /**
   * Lowercasing touches only ASCII capitals, and the receipt phrase has none,
   * so looking for it in the raw or the lowered keyword is the same.
   */
  lemma {:induction false} PhraseUnaffectedByLower(s: string)
    ensures Contains(ToLower(s), ReceiptPhrase) <==> Contains(s, ReceiptPhrase)
    decreases |s|
  {
    if |s| > 0 {
      PhraseUnaffectedByLower(s[1..]);
      assert ToLower(s)[1..] == ToLower(s[1..]);
      PrefixUnaffectedByLower(s);
    }
  }

  lemma PrefixUnaffectedByLower(s: string)
    ensures ReceiptPhrase <= ToLower(s) <==> ReceiptPhrase <= s
  {
    if |s| >= |ReceiptPhrase| {
      if ReceiptPhrase <= ToLower(s) {
        forall i | 0 <= i < |ReceiptPhrase|
          ensures s[i] == ReceiptPhrase[i]
        {
          assert LowerChar(s[i]) == ReceiptPhrase[i];
        }
      }
    }
  }

  /** For every present keyword the corrected picker agrees with the code as written. */
  lemma AgreesWhenPresent(k: string)
    ensures PromptAsWritten(Some(k)) == Ok(PromptFor(Some(k)))
  {
    PhraseUnaffectedByLower(k);
  }

  lemma ContainsItself(s: string)
    ensures Contains(s, s)
  {
    assert OccursAt(s, s, 0);
    ContainsAt(s, s, 0);
  }

  /** The three fixed keywords the classifiers use get the prompt of their own name. */
  lemma JanzourKeyword(k: string)
    requires k == "janzour"
    ensures PromptFor(Some(k)) == Janzour
  {
    assert forall i :: 0 <= i < |k| ==> 'a' <= k[i] <= 'z';
    LowercaseKeyword(k);
    ContainsItself(k);
  }

  lemma MassaraKeyword(k: string)
    requires k == "massara"
    ensures PromptFor(Some(k)) == Massara
  {
    LowercaseKeyword(k);
    NotContainsForeignChar(k, "janzour", 'j');
    ContainsItself(k);
  }

  lemma IdCardKeyword(k: string)
    requires k == "idcard"
    ensures PromptFor(Some(k)) == IdCard
  {
    LowercaseKeyword(k);
    NotContainsForeignChar(k, "janzour", 'j');
    NotContainsForeignChar(k, "massara", 'm');
    ContainsItself(k);
  }

  lemma LowercaseKeyword(k: string)
    requires forall i :: 0 <= i < |k| ==> !('A' <= k[i] <= 'Z')
    ensures Lowered(Some(k)) == k
  {}

  /** "massara medicine" gets the Massara prompt here, as a substring match. */
  lemma MassaraMedicineGetsMassara(k: string)
    requires k == "massara medicine"
    ensures PromptFor(Some(k)) == Massara
  {
    assert k == "massara" + " medicine";
    MassaraPrefixed(k);
  }

  /** A lowercase keyword without a 'j' that starts with "massara" gets the Massara prompt. */
  lemma MassaraPrefixed(k: string)
    requires forall i :: 0 <= i < |k| ==> !('A' <= k[i] <= 'Z')
    requires 'j' !in k && "massara" <= k
    ensures PromptFor(Some(k)) == Massara
  {
    LowercaseKeyword(k);
    NotContainsForeignChar(k, "janzour", 'j');
    assert OccursAt(k, "massara", 0);
    ContainsAt(k, "massara", 0);
  }
}
