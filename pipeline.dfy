/**
 * `process_message` of main.py: strip the message, reject blank input,
 * decide the language, and send Indonesian or Chinese text through its
 * branch of the pipeline to the translator and the spreadsheet log.
 */
module Pipeline {
  import opened Wrappers
  import opened Chars
  import opened Expander
  import opened Polisher
  import opened Language
  import opened TimeConverter

  /** The fixed replies of main.py:483, 490, 496 and 520, and the reply prefix of 506 and 515. */
  const PromptReply := "\U{26A0}\U{FE0F} 請輸入有效文字"
  const UndetectedReply := "\U{26A0}\U{FE0F} 無法偵測語言"
  const UnsupportedReply := "\U{26A0}\U{FE0F} 僅支援中文與印尼文"
  const FailureText := "\U{26A0}\U{FE0F} 翻譯失敗"
  const ReplyPrefix := "\U{1F5E3}\U{FE0F} 翻譯結果："

  /** One call of the translator: the text and the two language codes. */
  datatype Request = Request(text: string, source: string, target: string)

  /** One spreadsheet row: the stripped message and the text sent back. */
  datatype Row = Row(original: string, result: string)

  /** The external translator: its answer, or `None` where it raises. */
  type Translator = Request -> Option<string>

  /** What one message produces: the reply, the translator call made and the row logged, if any. */
  datatype Outcome = Outcome(reply: string, request: Option<Request>, row: Option<Row>)

  predicate StartsWith(s: string, p: string) { |p| <= |s| && s[..|p|] == p }

  /** `translate_text`: a failing translator call yields the failure text. */
  function Translate(translator: Translator, req: Request): (r: string)
    ensures translator(req).Some? ==> r == translator(req).value
    ensures translator(req).None? ==> r == FailureText
  {
    match translator(req)
    case Some(t) => t
    case None => FailureText
  }

  /** Empty, or made only of ASCII punctuation: `all` over an empty text holds. */
  predicate IsBlank(t: string) { forall j :: 0 <= j < |t| ==> IsPunctuation(t[j]) }

  /** `not lang`: no language, or the empty code. */
  predicate Undetected(lang: Option<string>) { lang.None? || lang.value == [] }

  predicate IsIndonesian(lang: string) { lang == "indonesian" || StartsWith(lang, "id") }

  predicate IsChinese(lang: string) { lang == "chinese" || StartsWith(lang, "zh") }

  /** The Indonesian branch's request: lower-case, expand, pre-process. */
  function IndonesianRequest(lexicon: Table, t: string): Request
  {
    Request(Preprocess(Expand(lexicon, Lower(t)), "indonesian"), "id", "zh-TW")
  }

  /** The Chinese branch's request: the polished input. */
  function ChineseRequest(polish: PolishTable, t: string): Request
  {
    Request(Polish(polish, t), "zh-TW", "id")
  }

  /** The outcome `process_message` produces for `message`. */
  function Process(lexicon: Table, polish: PolishTable, detector: Detector, translator: Translator, message: string): (o: Outcome)
    ensures o.reply in {PromptReply, UndetectedReply, UnsupportedReply} || StartsWith(o.reply, ReplyPrefix)
    ensures o.request.Some? <==> o.row.Some?
    ensures o.row.Some? ==> o.row.value.original == Strip(message) && o.reply == ReplyPrefix + o.row.value.result
    ensures o.request.None? ==> o.reply in {PromptReply, UndetectedReply, UnsupportedReply}
  {
    var text := Strip(message);
    if IsBlank(text) then Outcome(PromptReply, None, None)
    else
      var (lang, cleaned) := DetectLanguage(text, detector);
      if Undetected(lang) then Outcome(UndetectedReply, None, None)
      else if IsIndonesian(lang.value) then
        var req := IndonesianRequest(lexicon, cleaned);
        var polished := Polish(polish, Translate(translator, req));
        Outcome(ReplyPrefix + polished, Some(req), Some(Row(text, polished)))
      else if IsChinese(lang.value) then
        var req := ChineseRequest(polish, cleaned);
        var translated := Translate(translator, req);
        Outcome(ReplyPrefix + translated, Some(req), Some(Row(text, translated)))
      else Outcome(UnsupportedReply, None, None)
  }

  /** The three fixed replies differ from each other and from every translated reply. */
  lemma RepliesDistinct(r: string)
    ensures PromptReply != UndetectedReply && PromptReply != UnsupportedReply && UndetectedReply != UnsupportedReply
    ensures StartsWith(r, ReplyPrefix) ==> r !in {PromptReply, UndetectedReply, UnsupportedReply}
  {
    assert PromptReply[3] == '請' && UndetectedReply[3] == '無' && UnsupportedReply[3] == '僅';
    if StartsWith(r, ReplyPrefix) {
      assert r[0] == ReplyPrefix[0];
    }
  }

  /**
   * The prompt to enter text is the reply exactly when the stripped message
   * is blank, and then neither the translator nor the log is called.
   */
  lemma PromptExactlyWhenBlank(lexicon: Table, polish: PolishTable, detector: Detector, translator: Translator, message: string)
    ensures Process(lexicon, polish, detector, translator, message).reply == PromptReply <==> IsBlank(Strip(message))
    ensures IsBlank(Strip(message)) ==> Process(lexicon, polish, detector, translator, message) == Outcome(PromptReply, None, None)
  {
    RepliesDistinct(Process(lexicon, polish, detector, translator, message).reply);
  }

  /** The language is undetectable exactly when the reply says so; nothing is translated or logged. */
  lemma UndetectedExactly(lexicon: Table, polish: PolishTable, detector: Detector, translator: Translator, message: string)
    ensures var t := Strip(message);
      Process(lexicon, polish, detector, translator, message).reply == UndetectedReply
      <==> !IsBlank(t) && Undetected(DetectLanguage(t, detector).0)
    ensures var t := Strip(message);
      !IsBlank(t) && Undetected(DetectLanguage(t, detector).0) ==>
      Process(lexicon, polish, detector, translator, message) == Outcome(UndetectedReply, None, None)
  {
    RepliesDistinct(Process(lexicon, polish, detector, translator, message).reply);
  }

  /** A language other than Indonesian and Chinese is refused without a translator call. */
  lemma UnsupportedExactly(lexicon: Table, polish: PolishTable, detector: Detector, translator: Translator, message: string)
    ensures var t := Strip(message); var lang := DetectLanguage(t, detector).0;
      Process(lexicon, polish, detector, translator, message).reply == UnsupportedReply
      <==> !IsBlank(t) && !Undetected(lang) && !IsIndonesian(lang.value) && !IsChinese(lang.value)
    ensures var t := Strip(message); var lang := DetectLanguage(t, detector).0;
      !IsBlank(t) && !Undetected(lang) && !IsIndonesian(lang.value) && !IsChinese(lang.value) ==>
      Process(lexicon, polish, detector, translator, message) == Outcome(UnsupportedReply, None, None)
  {
    RepliesDistinct(Process(lexicon, polish, detector, translator, message).reply);
  }

  /**
   * The Indonesian branch translates the lower-cased, expanded and
   * pre-processed text from `id` to `zh-TW`; the answer is polished, so the
   * reply ends with a sentence mark, and logged with the stripped message.
   */
  lemma IndonesianBranch(lexicon: Table, polish: PolishTable, detector: Detector, translator: Translator, message: string)
    requires var t := Strip(message); var lang := DetectLanguage(t, detector).0;
      !IsBlank(t) && !Undetected(lang) && IsIndonesian(lang.value)
    ensures var t := Strip(message); var o := Process(lexicon, polish, detector, translator, message);
      var req := Request(Preprocess(Expand(lexicon, Lower(t)), "indonesian"), "id", "zh-TW");
      o.request == Some(req)
      && o.row == Some(Row(t, Polish(polish, Translate(translator, req))))
      && o.reply == ReplyPrefix + Polish(polish, Translate(translator, req))
      && EndsWithMark(o.reply)
  {
    var o := Process(lexicon, polish, detector, translator, message);
    MarkAfterPrefix(ReplyPrefix, o.row.value.result);
  }

  /**
   * The Chinese branch polishes the input first and translates it from
   * `zh-TW` to `id`; the translator's answer is returned and logged as is.
   */
  lemma ChineseBranch(lexicon: Table, polish: PolishTable, detector: Detector, translator: Translator, message: string)
    requires var t := Strip(message); var lang := DetectLanguage(t, detector).0;
      !IsBlank(t) && !Undetected(lang) && !IsIndonesian(lang.value) && IsChinese(lang.value)
    ensures var t := Strip(message); var o := Process(lexicon, polish, detector, translator, message);
      var req := Request(Polish(polish, t), "zh-TW", "id");
      o.request == Some(req)
      && o.row == Some(Row(t, Translate(translator, req)))
      && o.reply == ReplyPrefix + Translate(translator, req)
  {
  }

  /** A failing translator in the Indonesian branch: its failure text is polished to end with 。. */
  lemma IndonesianFailure(lexicon: Table, detector: Detector, translator: Translator, message: string)
    requires var t := Strip(message); var lang := DetectLanguage(t, detector).0;
      !IsBlank(t) && !Undetected(lang) && IsIndonesian(lang.value)
      && translator(IndonesianRequest(lexicon, t)).None?
    ensures Process(lexicon, PolishMap, detector, translator, message).reply == ReplyPrefix + FailureText + "。"
  {
    PolishFailureSentinel();
  }

  /** A failing translator in the Chinese branch: the failure text is returned unpolished. */
  lemma ChineseFailure(lexicon: Table, polish: PolishTable, detector: Detector, translator: Translator, message: string)
    requires var t := Strip(message); var lang := DetectLanguage(t, detector).0;
      !IsBlank(t) && !Undetected(lang) && !IsIndonesian(lang.value) && IsChinese(lang.value)
      && translator(ChineseRequest(polish, t)).None?
    ensures Process(lexicon, polish, detector, translator, message).reply == ReplyPrefix + FailureText
  {
  }

  /**
   * The bot's effects: the rows appended to the spreadsheet and the calls
   * made to the translator, in order. Without a spreadsheet connection no row
   * is written.
   */
  class Bot {
    var sheet: seq<Row>
    var requests: seq<Request>
    const sheetAvailable: bool
    const lexicon: Table
    const polish: PolishTable
    const detector: Detector
    const translator: Translator

    constructor (sheetAvailable: bool, lexicon: Table, polish: PolishTable, detector: Detector, translator: Translator)
      ensures sheet == [] && requests == []
      ensures this.sheetAvailable == sheetAvailable && this.lexicon == lexicon && this.polish == polish
      ensures this.detector == detector && this.translator == translator
    {
      this.sheetAvailable := sheetAvailable;
      this.lexicon := lexicon;
      this.polish := polish;
      this.detector := detector;
      this.translator := translator;
      sheet := [];
      requests := [];
    }

    /** `translate_text`: one call of the translator. */
    method TranslateText(text: string, source: string, target: string) returns (r: string)
      modifies this
      ensures r == Translate(translator, Request(text, source, target))
      ensures requests == old(requests) + [Request(text, source, target)] && sheet == old(sheet)
    {
      requests := requests + [Request(text, source, target)];
      r := Translate(translator, Request(text, source, target));
    }

    /** `save_to_sheet`: appends the row when the spreadsheet is connected. */
    method SaveToSheet(original: string, translated: string)
      modifies this
      ensures sheet == old(sheet) + (if sheetAvailable then [Row(original, translated)] else [])
      ensures requests == old(requests)
    {
      if sheetAvailable {
        sheet := sheet + [Row(original, translated)];
      }
    }

    /**
     * `process_message`: the reply is the one `Process` gives, the
     * translator was called with its request, and its row was logged.
     */
    method ProcessMessage(message: string) returns (reply: string)
      modifies this
      ensures var o := Process(lexicon, polish, detector, translator, message);
        reply == o.reply
        && requests == old(requests) + (if o.request.Some? then [o.request.value] else [])
        && sheet == old(sheet) + (if sheetAvailable && o.row.Some? then [o.row.value] else [])
    {
      var text := Strip(message);
      if IsBlank(text) {
        return PromptReply;
      }
      var lang, cleaned := DetectLanguage(text, detector).0, DetectLanguage(text, detector).1;
      if Undetected(lang) {
        return UndetectedReply;
      }
      if IsIndonesian(lang.value) {
        var expanded := ExpandAbbreviations(lexicon, Lower(cleaned));
        var preprocessed := PreprocessText(expanded, "indonesian");
        var translated := TranslateText(preprocessed, "id", "zh-TW");
        var polished := PolishChinese(polish, translated);
        SaveToSheet(text, polished);
        return ReplyPrefix + polished;
      } else if IsChinese(lang.value) {
        var polishedInput := PolishChinese(polish, cleaned);
        var translated := TranslateText(polishedInput, "zh-TW", "id");
        SaveToSheet(text, translated);
        return ReplyPrefix + translated;
      } else {
        return UnsupportedReply;
      }
    }
  }
}
