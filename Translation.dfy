/** The language-argument handling of `Translation.TranslateText`: the list
    of supported Cloud Translation v3 language codes, the validation of the
    target and source codes, and the request the service is sent. The service
    itself is a function parameter. */
module Translation {
  import opened Common
  import opened Strings

  const ProjectId: string := "langvision-449521"

  /** The language codes the translator accepts, in the source's order,
      written as the eight lines of its array initialiser. */
  const SupportedLanguages: seq<string> :=
    Codes1 + Codes2 + Codes3 + Codes4 + Codes5 + Codes6 + Codes7 + Codes8

  const Codes1: seq<string> := ["af", "ar", "az", "be", "bg", "bn", "bs", "ca", "ceb", "cs", "cy", "da", "de"]
  const Codes2: seq<string> := ["el", "en", "eo", "es", "et", "eu", "fa", "fi", "fil", "fr", "fy", "ga", "gd"]
  const Codes3: seq<string> := ["gl", "gu", "ha", "haw", "hi", "hmn", "hr", "ht", "hu", "hy", "id", "ig", "is"]
  const Codes4: seq<string> := ["it", "iw", "ja", "jv", "ka", "kk", "km", "kn", "ko", "ku", "ky", "la", "lb"]
  const Codes5: seq<string> := ["lo", "lt", "lv", "mg", "mi", "mk", "ml", "mn", "mr", "ms", "mt", "my", "ne"]
  const Codes6: seq<string> := ["nl", "no", "ny", "pa", "pl", "ps", "pt", "ro", "ru", "sd", "si", "sk", "sl"]
  const Codes7: seq<string> := ["sm", "sn", "so", "sq", "sr", "st", "su", "sv", "sw", "ta", "te", "tg", "th"]
  const Codes8: seq<string> := ["tl", "tr", "uk", "ur", "uz", "vi", "xh", "yi", "yo", "zh-CN", "zh-TW", "zu"]

  /** The request's `Parent`: the project's global location. */
  const Parent: string := "projects/" + ProjectId + "/locations/global"

  /** `TranslateTextRequest` with the four fields the source sets. */
  datatype TranslateRequest = TranslateRequest(
    contents: seq<string>,
    sourceLanguageCode: string,
    targetLanguageCode: string,
    parent: string)

  /** The exceptions `TranslateText` raises. */
  datatype TranslateError =
    | InvalidTargetLanguage(lang: string)  // ArgumentException "Invalid target language: …"
    | InvalidSourceLanguage(lang: string)  // ArgumentException "Invalid source language: …"
    | NoTranslation                        // `Translations[0]` of an empty response

  /** The Cloud Translation call: the translations it returns for a request. */
  type TranslationService = TranslateRequest -> seq<string>

  predicate IsSupported(lang: string) {
    lang in SupportedLanguages
  }

  /** The source's sentinel that asks the service to detect the language. */
  const Auto: string := "auto"

  /** The two argument checks, target first; `None` when both pass. */
  function ValidateLanguages(sourceLang: string, targetLang: string): Option<TranslateError> {
    if !IsSupported(targetLang) then Some(InvalidTargetLanguage(targetLang))
    else if !IsSupported(sourceLang) && sourceLang != Auto then Some(InvalidSourceLanguage(sourceLang))
    else None
  }

  /** `sourceLang.ToLower() == "auto" ? "" : sourceLang`. */
  function SourceLanguageCode(sourceLang: string): string {
    if AsciiLower(sourceLang) == Auto then "" else sourceLang
  }

  function BuildRequest(text: string, sourceLang: string, targetLang: string): TranslateRequest {
    TranslateRequest([text], SourceLanguageCode(sourceLang), targetLang, Parent)
  }

  /** `TranslateText`: blank text translates to the empty string without any
      check; otherwise the languages are validated, the request is sent and
      the first translation is returned. */
  function TranslateText(text: string, sourceLang: string, targetLang: string, service: TranslationService)
    : (r: Result<string, TranslateError>)
    ensures IsBlank(text) ==> r == Success("")
    ensures !IsBlank(text) ==>
              (r.Success? <==> ValidateLanguages(sourceLang, targetLang) == None &&
                               |service(BuildRequest(text, sourceLang, targetLang))| > 0)
    ensures !IsBlank(text) && r.Success? ==> r.value == service(BuildRequest(text, sourceLang, targetLang))[0]
  {
    if IsBlank(text) then Success("")
    else
      match ValidateLanguages(sourceLang, targetLang)
      case Some(e) => Failure(e)
      case None =>
        var translations := service(BuildRequest(text, sourceLang, targetLang));
        if |translations| == 0 then Failure(NoTranslation) else Success(translations[0])
  }

  /** Every supported code has two, three or five characters; in particular
      none is empty and none is "auto" under any casing. */
  lemma SupportedCodeLengths(lang: string)
    requires IsSupported(lang)
    ensures CodeLength(lang)
  {
    CodeLinesLengths();
    assert lang in Codes1 || lang in Codes2 || lang in Codes3 || lang in Codes4 ||
           lang in Codes5 || lang in Codes6 || lang in Codes7 || lang in Codes8;
  }

  lemma CodeLinesLengths()
    ensures forall i :: 0 <= i < |Codes1| ==> CodeLength(Codes1[i])
    ensures forall i :: 0 <= i < |Codes2| ==> CodeLength(Codes2[i])
    ensures forall i :: 0 <= i < |Codes3| ==> CodeLength(Codes3[i])
    ensures forall i :: 0 <= i < |Codes4| ==> CodeLength(Codes4[i])
    ensures forall i :: 0 <= i < |Codes5| ==> CodeLength(Codes5[i])
    ensures forall i :: 0 <= i < |Codes6| ==> CodeLength(Codes6[i])
    ensures forall i :: 0 <= i < |Codes7| ==> CodeLength(Codes7[i])
    ensures forall i :: 0 <= i < |Codes8| ==> CodeLength(Codes8[i])
  {
  }

  predicate CodeLength(code: string) {
    |code| == 2 || |code| == 3 || |code| == 5
  }

  /** Neither "auto" nor the empty code is a supported language. */
  lemma AutoIsNotSupported()
    ensures !IsSupported(Auto) && !IsSupported("")
  {
    if IsSupported(Auto) {
      SupportedCodeLengths(Auto);
    }
    if IsSupported("") {
      SupportedCodeLengths("");
    }
  }

  /** A blank text is translated to "" whatever the languages, and the
      service is not consulted. */
  lemma BlankTextIsNotValidated(text: string, sourceLang: string, targetLang: string,
                                s1: TranslationService, s2: TranslationService)
    requires IsBlank(text)
    ensures TranslateText(text, sourceLang, targetLang, s1) == TranslateText(text, sourceLang, targetLang, s2) == Success("")
  {
  }

  /** An unsupported target is rejected, whatever the source; in particular
      "auto" is not a valid target. */
  lemma TargetIsCheckedFirst(text: string, sourceLang: string, targetLang: string, service: TranslationService)
    requires !IsBlank(text) && !IsSupported(targetLang)
    ensures TranslateText(text, sourceLang, targetLang, service) == Failure(InvalidTargetLanguage(targetLang))
  {
  }

  lemma AutoIsNotATarget(text: string, sourceLang: string, service: TranslationService)
    requires !IsBlank(text)
    ensures TranslateText(text, sourceLang, Auto, service) == Failure(InvalidTargetLanguage(Auto))
  {
    AutoIsNotSupported();
  }

  /** With a supported target, the source must be supported or exactly "auto". */
  lemma SourceValidation(text: string, sourceLang: string, targetLang: string, service: TranslationService)
    requires !IsBlank(text) && IsSupported(targetLang)
    ensures TranslateText(text, sourceLang, targetLang, service) == Failure(InvalidSourceLanguage(sourceLang))
            <==> !IsSupported(sourceLang) && sourceLang != Auto
  {
  }

  /** "AUTO" or "Auto" fail the source check, so the case-insensitive test
      that builds the request only ever sees the exact "auto". */
  lemma CapitalisedAutoIsRejected(text: string, targetLang: string, service: TranslationService)
    requires !IsBlank(text) && IsSupported(targetLang)
    ensures TranslateText(text, "AUTO", targetLang, service) == Failure(InvalidSourceLanguage("AUTO"))
    ensures TranslateText(text, "Auto", targetLang, service) == Failure(InvalidSourceLanguage("Auto"))
  {
    if IsSupported("AUTO") {
      SupportedCodeLengths("AUTO");
    }
    if IsSupported("Auto") {
      SupportedCodeLengths("Auto");
    }
  }

  /** For validated arguments the request asks for detection exactly when the
      source is "auto", and otherwise carries the source and target unchanged
      under the project's global location. */
  lemma RequestFields(text: string, sourceLang: string, targetLang: string)
    requires IsSupported(sourceLang) || sourceLang == Auto
    ensures var req := BuildRequest(text, sourceLang, targetLang);
            && req.contents == [text]
            && (req.sourceLanguageCode == "" <==> sourceLang == Auto)
            && (sourceLang != Auto ==> req.sourceLanguageCode == sourceLang)
            && req.targetLanguageCode == targetLang
            && req.parent == Parent
  {
    var code := SourceLanguageCode(sourceLang);
    if sourceLang == Auto {
      AsciiLowerKeepsLowercase(Auto);
      assert code == "";
    } else {
      SupportedCodeLengths(sourceLang);
      assert |AsciiLower(sourceLang)| != |Auto|;
      assert code == sourceLang && |code| > 0;
    }
  }

  /** The parent path names the project's global location. */
  lemma ParentIsGlobalLocation()
    ensures Parent == "projects/langvision-449521/locations/global"
  {
  }

  /** The language a request asks to translate from, "auto" for detection. */
  function RequestedSource(req: TranslateRequest): string {
    if req.sourceLanguageCode == "" then Auto else req.sourceLanguageCode
  }

  /** The request records the validated source language faithfully. */
  lemma RequestedSourceRoundTrip(text: string, sourceLang: string, targetLang: string)
    requires IsSupported(sourceLang) || sourceLang == Auto
    ensures RequestedSource(BuildRequest(text, sourceLang, targetLang)) == sourceLang
  {
    RequestFields(text, sourceLang, targetLang);
  }
}
