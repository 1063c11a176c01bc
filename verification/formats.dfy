/**
 `generateResponseData`: which serializer answers a request, chosen from the
 extension of the path's last segment.
 */
module Formats {

  import opened Wrappers
  import opened Decimal

  datatype Format = Json | Html | PlainText | Xml

  /**
   No extension means JSON; otherwise the lower-cased extension picks HTML
   (`htm`, `html`), plain text (`txt`) or XML (`xml`), and anything else
   falls back to JSON.
   */
  function SelectFormat(ext: Option<string>): (f: Format)
    ensures ext.None? ==> f == Json
    ensures ext.Some? ==> (f == Html <==> ToLower(ext.value) == "htm" || ToLower(ext.value) == "html")
    ensures ext.Some? ==> (f == PlainText <==> ToLower(ext.value) == "txt")
    ensures ext.Some? ==> (f == Xml <==> ToLower(ext.value) == "xml")
  {
    match ext
    case None => Json
    case Some(e) =>
      var lower := ToLower(e);
      if lower == "htm" || lower == "html" then Html
      else if lower == "txt" then PlainText
      else if lower == "xml" then Xml
      else Json
  }

  /** Extensions that differ only in the case of their letters select the same format. */
  lemma SelectFormatIgnoresCase(a: string, b: string)
    requires ToLower(a) == ToLower(b)
    ensures SelectFormat(Some(a)) == SelectFormat(Some(b))
  {
  }

  /** In particular an extension selects what its lower-case spelling selects. */
  lemma SelectFormatOfLower(e: string)
    ensures SelectFormat(Some(e)) == SelectFormat(Some(ToLower(e)))
  {
    ToLowerIdempotent(e);
  }

  /**
   A path ending in a bare dot has the empty extension, which PHP's loose
   `== null` treats as no extension: either way the answer is JSON.
   */
  lemma EmptyExtensionIsJson()
    ensures SelectFormat(Some("")) == SelectFormat(None) == Json
  {
  }

  /** Upper-case spellings are recognised too. */
  lemma UpperCaseExtensions()
    ensures SelectFormat(Some("HTML")) == Html
    ensures SelectFormat(Some("Txt")) == PlainText
    ensures SelectFormat(Some("XML")) == Xml
    ensures SelectFormat(Some("JSON")) == Json
  {
    assert ToLower("HTML") == "html";
    assert ToLower("Txt") == "txt";
    assert ToLower("XML") == "xml";
    assert ToLower("JSON") == "json";
  }
}
