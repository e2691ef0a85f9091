/**
 * The command line's value parsers and format tables: the chunk-size validator, the CLI's own
 * input-format enum with its extension lookup and its mapping onto the converter's formats,
 * and the output formats with their extensions and display names.
 */
module CliArgs {
  import opened Wrappers
  import Format

  /** `usize::MAX` on a 64-bit target. */
  const UsizeMax: nat := 0xFFFF_FFFF_FFFF_FFFF

  predicate IsDigit(c: char)
  {
    '0' <= c <= '9'
  }

  predicate AllDigits(s: string)
  {
    forall i | 0 <= i < |s| :: IsDigit(s[i])
  }

  /** The number a string of decimal digits denotes, most significant digit first. */
  function DigitsValue(ds: string): nat
    requires AllDigits(ds)
  {
    if ds == [] then 0 else DigitsValue(ds[..|ds| - 1]) * 10 + (ds[|ds| - 1] as int - '0' as int)
  }

  /**
   * `str::parse::<usize>`: an optional leading '+', then one or more ASCII digits whose value
   * fits in a `usize`; anything else (empty input, a bare sign, a '-', any other character,
   * or a value past `usize::MAX`) fails.
   */
  function ParseUsize(s: string): (r: Option<nat>)
    ensures r.Some? ==> r.value <= UsizeMax
  {
    var digits := if s != [] && s[0] == '+' then s[1..] else s;
    if digits != [] && AllDigits(digits) && DigitsValue(digits) <= UsizeMax then Some(DigitsValue(digits))
    else None
  }

  /** The decimal rendering of `n`, without sign or leading zeros. */
  function Decimal(n: nat): (s: string)
    ensures s != [] && AllDigits(s)
    ensures DigitsValue(s) == n
    decreases n
  {
    var d := [('0' as int + n % 10) as char];
    if n < 10 then d
    else
      var s := Decimal(n / 10) + d;
      assert s[..|s| - 1] == Decimal(n / 10);
      s
  }

  /** Every `usize` read back from its decimal rendering, with or without a '+'. */
  lemma ParseDecimal(n: nat)
    requires n <= UsizeMax
    ensures ParseUsize(Decimal(n)) == Some(n)
    ensures ParseUsize("+" + Decimal(n)) == Some(n)
  {
    var s := Decimal(n);
    assert ("+" + s)[1..] == s;
  }

  /** A number past `usize::MAX` does not parse. */
  lemma ParseOverflow(n: nat)
    requires n > UsizeMax
    ensures ParseUsize(Decimal(n)) == None
  {
  }

  /** `validate_chunk_size`: a positive `usize`, or the message the command line shows. */
  function ValidateChunkSize(s: string): (r: Result<nat, string>)
    ensures r.Ok? <==> ParseUsize(s).Some? && ParseUsize(s).value > 0
    ensures r.Ok? ==> Some(r.value) == ParseUsize(s)
    ensures ParseUsize(s).None? ==> r == Err("invalid chunk size: " + s)
    ensures ParseUsize(s) == Some(0) ==> r == Err("chunk size must be greater than 0")
  {
    match ParseUsize(s)
    case None => Err("invalid chunk size: " + s)
    case Some(size) => if size == 0 then Err("chunk size must be greater than 0") else Ok(size)
  }

  /** Any positive size is returned unchanged. */
  lemma ValidateDecimal(n: nat)
    requires 0 < n <= UsizeMax
    ensures ValidateChunkSize(Decimal(n)) == Ok(n)
  {
    ParseDecimal(n);
  }

  /** "0" is a number, but not a valid size; "abc" and "-5" are not numbers. */
  lemma ValidateExamples()
    ensures ValidateChunkSize("0") == Err("chunk size must be greater than 0")
    ensures ValidateChunkSize("abc") == Err("invalid chunk size: abc")
    ensures ValidateChunkSize("-5") == Err("invalid chunk size: -5")
  {
    assert DigitsValue("0") == 0;
    assert "abc"[0] == 'a' && !IsDigit('a');
    assert !AllDigits("abc");
    assert "-5"[0] == '-' && !IsDigit('-');
    assert !AllDigits("-5");
    assert ParseUsize("abc") == None && ParseUsize("-5") == None;
    assert "invalid chunk size: " + "abc" == "invalid chunk size: abc";
    assert "invalid chunk size: " + "-5" == "invalid chunk size: -5";
  }

  /** The command line's input-format choices. */
  datatype InputFormat = Pdf | Markdown | Html | Csv | Docx
  {
    /** `to_docling_format`: the converter's format of the same name. */
    function ToDoclingFormat(): Format.InputFormat
    {
      match this
      case Pdf => Format.PDF
      case Markdown => Format.Markdown
      case Html => Format.Html
      case Csv => Format.Csv
      case Docx => Format.Docx
    }
  }

  /** The CLI choice for each converter format. */
  function FromDocling(f: Format.InputFormat): (c: InputFormat)
    ensures c.ToDoclingFormat() == f
  {
    match f
    case PDF => Pdf
    case Markdown => InputFormat.Markdown
    case Html => Html
    case Csv => Csv
    case Docx => Docx
  }

  /** `to_docling_format` is one-to-one and onto: `FromDocling` is its inverse. */
  lemma ToDoclingFormatBijective(c: InputFormat, d: InputFormat)
    ensures FromDocling(c.ToDoclingFormat()) == c
    ensures c.ToDoclingFormat() == d.ToDoclingFormat() ==> c == d
  {
  }

  /** The CLI's own `InputFormat::from_extension`. */
  function FromExtension(ext: string): (r: Option<InputFormat>)
  {
    var l := Format.ToLower(ext);
    if l == "pdf" then Some(Pdf)
    else if l == "md" || l == "markdown" then Some(InputFormat.Markdown)
    else if l == "html" || l == "htm" then Some(Html)
    else if l == "csv" then Some(Csv)
    else if l == "docx" then Some(Docx)
    else None
  }

  /**
   * The CLI lookup accepts exactly the converter's extensions, and converting its answer
   * gives the converter's answer.
   */
  lemma FromExtensionAgrees(ext: string)
    ensures FromExtension(ext).Some? <==> Format.FromExtension(ext).Some?
    ensures FromExtension(ext).Some? ==> FromExtension(ext).value.ToDoclingFormat() == Format.FromExtension(ext).value
  {
  }

  /** Output formats. */
  datatype OutputFormat = Markdown | Json | Text
  {
    /** `OutputFormat::extension`. */
    function Extension(): string
    {
      match this
      case Markdown => "md"
      case Json => "json"
      case Text => "txt"
    }

    /** `Display for OutputFormat`. */
    function Display(): string
    {
      match this
      case Markdown => "markdown"
      case Json => "json"
      case Text => "text"
    }
  }

  /** Distinct output formats have distinct extensions and distinct display names. */
  lemma OutputFormatNamesDistinct(f: OutputFormat, g: OutputFormat)
    ensures f.Extension() == g.Extension() ==> f == g
    ensures f.Display() == g.Display() ==> f == g
  {
  }

  /** Markdown output gets the extension the converter reads Markdown from. */
  lemma MarkdownOutputReadsBack()
    ensures Format.FromExtension(OutputFormat.Markdown.Extension()) == Some(Format.Markdown)
  {
    Format.ExtensionRoundTrip(Format.Markdown);
  }
}
