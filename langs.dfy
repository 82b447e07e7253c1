// The table of source-file extensions each supported language tracks in
// the incremental cache.

module Langs {

  /** The extensions, without the leading '.', of the sources of `lang`;
      empty for a language the tool does not know. */
  function ExtensionsForLang(lang: string): (r: seq<string>)
    ensures r != [] <==> lang in {"java", "kotlin", "python"}
    ensures forall e :: e in r ==> e != [] && '.' !in e && '/' !in e
  {
    match lang
    case "java" => ["java"]
    case "kotlin" => ["kt", "kts"]
    case "python" => ["py"]
    case _ => []
  }
}
