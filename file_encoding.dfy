/** The per-file encoding descriptor (FileDiff/FileEncoding.cs): which text
    encoding, whether a byte-order mark is present, and the newline
    convention, with the terminator a save writes and the name shown in the
    status bar. */
module FileEncodings {

  /** The runtime encodings the descriptor distinguishes. `Default` is the
      system's default encoding, known here by its web name. */
  datatype Encoding = UTF7 | UTF8 | Unicode | BigEndianUnicode | UTF32
                    | Default(webName: string) | Other

  /** The newline conventions. Only `Mac` and `Unix` are named by the code
      that maps them; every other convention is written as CR LF. */
  datatype NewlineMode = Windows | Unix | Mac | OtherMode(name: string)

  /** The name `NewlineMode.ToString()` gives. */
  function NewlineName(m: NewlineMode): string {
    match m
    case Windows => "Windows"
    case Unix => "Unix"
    case Mac => "Mac"
    case OtherMode(name) => name
  }

  /** The descriptor; the constructor stores its three arguments. */
  datatype FileEncoding = FileEncoding(encoding: Encoding, bom: bool, newline: NewlineMode)

  /** `GetNewLineString`: the line terminator written on save. */
  function GetNewLineString(e: FileEncoding): (r: string)
    ensures e.newline == Mac <==> r == "\r"
    ensures e.newline == Unix <==> r == "\n"
    ensures e.newline != Mac && e.newline != Unix <==> r == "\r\n"
  {
    if e.newline == Mac then "\r"
    else if e.newline == Unix then "\n"
    else "\r\n"
  }

  /** The part of the display name that names the encoding. */
  function EncodingName(t: Encoding): string {
    match t
    case UTF7 => "UTF-7"
    case UTF8 => "UTF-8"
    case Unicode => "UTF-16 LE"
    case BigEndianUnicode => "UTF-16 BE"
    case UTF32 => "UTF-32"
    case Default(webName) => webName
    case Other => ""
  }

  /** The suffix naming the newline convention. */
  function NewlineSuffix(m: NewlineMode): string {
    " (" + NewlineName(m) + ")"
  }

  /** `ToString`: encoding name, then " BOM" when a byte-order mark is
      present, then the newline convention in parentheses. */
  function ToString(e: FileEncoding): (r: string)
    ensures |r| >= |NewlineSuffix(e.newline)|
  {
    var name := EncodingName(e.encoding);
    var name := if e.bom then name + " BOM" else name;
    name + NewlineSuffix(e.newline)
  }

  function EndsWith(s: string, suffix: string): bool {
    |suffix| <= |s| && s[|s| - |suffix|..] == suffix
  }

  /** The display name always ends with the newline suffix, and what comes
      before it is the encoding name followed by " BOM" exactly when the
      descriptor has a byte-order mark. */
  lemma ToStringShape(e: FileEncoding)
    ensures var r := ToString(e); var k := |r| - |NewlineSuffix(e.newline)|;
      EndsWith(r, NewlineSuffix(e.newline))
      && r[..k] == EncodingName(e.encoding) + (if e.bom then " BOM" else "")
  {
  }

  /** " BOM" precedes the newline suffix exactly when the descriptor has a
      byte-order mark; the one exception would be a default encoding whose
      web name itself ends in " BOM". */
  lemma ToStringBomIff(e: FileEncoding)
    requires !(e.encoding.Default? && EndsWith(e.encoding.webName, " BOM"))
    ensures var r := ToString(e); var k := |r| - |NewlineSuffix(e.newline)|;
      e.bom <==> EndsWith(r[..k], " BOM")
  {
    var r := ToString(e);
    var k := |r| - |NewlineSuffix(e.newline)|;
    ToStringShape(e);
    if !e.bom {
      var n := EncodingName(e.encoding);
      assert r[..k] == n;
      if |n| >= 4 && !e.encoding.Default? {
        assert n[|n| - 4..][0] != ' ';
      }
    }
  }

  /** The five named encodings have these display prefixes, the default
      encoding its web name, and any other encoding none. */
  lemma ToStringPrefix(e: FileEncoding)
    ensures var r := ToString(e);
      match e.encoding
      case UTF7 => r[..5] == "UTF-7"
      case UTF8 => r[..5] == "UTF-8"
      case Unicode => r[..9] == "UTF-16 LE"
      case BigEndianUnicode => r[..9] == "UTF-16 BE"
      case UTF32 => r[..6] == "UTF-32"
      case Default(w) => r[..|w|] == w
      case Other => r == (if e.bom then " BOM" else "") + NewlineSuffix(e.newline)
  {
    var r := ToString(e);
    var n := EncodingName(e.encoding);
    assert r == n + ((if e.bom then " BOM" else "") + NewlineSuffix(e.newline));
    assert r[..|n|] == n;
  }

  /** Different line terminators for different conventions: the three
      terminators are distinct and none is empty. */
  lemma NewLineStringsDistinct(a: FileEncoding, b: FileEncoding)
    ensures GetNewLineString(a) != []
    ensures GetNewLineString(a) == GetNewLineString(b) <==>
      (a.newline == b.newline || (a.newline !in {Mac, Unix} && b.newline !in {Mac, Unix}))
  {
  }
}
