/**
 * The input formats the converter knows, their canonical file extensions, and the
 * case-insensitive lookup from an extension back to a format.
 */
module Format {
  import opened Wrappers

  datatype InputFormat = Markdown | Html | Csv | Docx | PDF

  /**
   * `char::to_lowercase` as far as extension lookup can tell: ASCII capitals and the KELVIN
   * SIGN (whose lower case is the ASCII letter 'k') map to their lower-case letters; every
   * other character is kept.
   */
  function LowerChar(c: char): (l: char)
    ensures 'A' <= c <= 'Z' ==> l as int == c as int + 32
    ensures !('A' <= c <= 'Z') && c != '\U{212A}' ==> l == c
    ensures !('A' <= l <= 'Z')
  {
    if 'A' <= c <= 'Z' then (c as int + 32) as char
    else if c == '\U{212A}' then 'k'
    else c
  }

  /** `str::to_lowercase` as far as extension lookup can tell: `LowerChar` on every character. */
  function ToLower(s: string): (r: string)
    ensures |r| == |s|
    ensures forall i | 0 <= i < |s| :: r[i] == LowerChar(s[i])
  {
    if s == [] then [] else [LowerChar(s[0])] + ToLower(s[1..])
  }

  /** Lower-casing twice changes nothing more. */
  lemma ToLowerIdempotent(s: string)
    ensures ToLower(ToLower(s)) == ToLower(s)
  {
    var l := ToLower(s);
    assert forall i | 0 <= i < |l| :: LowerChar(l[i]) == l[i] by {
      forall i | 0 <= i < |l|
        ensures LowerChar(l[i]) == l[i]
      {
        assert l[i] == LowerChar(s[i]);
        assert l[i] != '\U{212A}';
      }
    }
  }

  /** A string without capitals is its own lower case. */
  lemma ToLowerOfLower(s: string)
    requires forall i | 0 <= i < |s| :: !('A' <= s[i] <= 'Z') && s[i] != '\U{212A}'
    ensures ToLower(s) == s
  {
  }

  /** `InputFormat::extension`. */
  function Extension(f: InputFormat): string
  {
    match f
    case Markdown => "md"
    case Html => "html"
    case Csv => "csv"
    case Docx => "docx"
    case PDF => "pdf"
  }

  /** The lower-case extensions that name each format: the canonical one and its aliases. */
  function Spellings(f: InputFormat): set<string>
  {
    match f
    case Markdown => {"md", "markdown"}
    case Html => {"html", "htm"}
    case Csv => {"csv"}
    case Docx => {"docx"}
    case PDF => {"pdf"}
  }

  /**
   * `InputFormat::from_extension`: the format one of whose spellings is the lower-cased
   * extension, and None when no format has it.
   */
  function FromExtension(ext: string): (r: Option<InputFormat>)
    ensures r.Some? ==> ToLower(ext) in Spellings(r.value)
    ensures r.None? ==> forall f :: ToLower(ext) !in Spellings(f)
  {
    var l := ToLower(ext);
    if l == "md" || l == "markdown" then Some(Markdown)
    else if l == "html" || l == "htm" then Some(Html)
    else if l == "csv" then Some(Csv)
    else if l == "docx" then Some(Docx)
    else if l == "pdf" then Some(PDF)
    else None
  }

  /** No extension names two formats. */
  lemma SpellingsDisjoint(f: InputFormat, g: InputFormat, e: string)
    requires e in Spellings(f) && e in Spellings(g)
    ensures f == g
  {
  }

  /** Every spelling of a format, in any case, is looked up as that format. */
  lemma FromExtensionOfSpelling(ext: string, f: InputFormat)
    requires ToLower(ext) in Spellings(f)
    ensures FromExtension(ext) == Some(f)
  {
    var r := FromExtension(ext);
    if r.Some? {
      SpellingsDisjoint(r.value, f, ToLower(ext));
    }
  }

  /** The lookup ignores case: an extension and its lower case find the same format. */
  lemma FromExtensionIgnoresCase(ext: string)
    ensures FromExtension(ToLower(ext)) == FromExtension(ext)
  {
    ToLowerIdempotent(ext);
  }

  /** A format's canonical extension is one of its spellings, so the lookup finds it again. */
  lemma ExtensionRoundTrip(f: InputFormat)
    ensures Extension(f) in Spellings(f)
    ensures FromExtension(Extension(f)) == Some(f)
  {
    ToLowerOfLower(Extension(f));
    FromExtensionOfSpelling(Extension(f), f);
  }

  /** Distinct formats have distinct canonical extensions. */
  lemma ExtensionInjective(f: InputFormat, g: InputFormat)
    requires Extension(f) == Extension(g)
    ensures f == g
  {
    ExtensionRoundTrip(f);
    ExtensionRoundTrip(g);
  }

  /** Upper-case extensions are accepted: "PDF" names PDF ... */
  lemma UpperCasePdf()
    ensures FromExtension("PDF") == Some(PDF)
  {
    assert ToLower("PDF") == "pdf";
  }

  /** ... and "Htm" names Html. */
  lemma MixedCaseHtm()
    ensures FromExtension("Htm") == Some(Html)
  {
    assert ToLower("Htm") == "htm";
  }
}
