/**
 * GameID assembly: the game code read from the output of `ndstool -i`,
 * then one space, then the JAMCRC fingerprint of the ROM header.
 */
module GenerateGameId {
  import opened Wrappers
  import opened Text
  import opened HeaderCrc32

  const GameCodeLabel := "Game code"

  /** `s[:4]`. */
  function Take4(s: string): (r: string)
    ensures |r| <= 4 && |r| <= |s|
    ensures r == s[..|r|]
    ensures |r| == 4 || r == s
  {
    if |s| <= 4 then s else s[..4]
  }

  /** What a returned code looks like: at most four characters, no lower-case letter, no leading whitespace. */
  predicate CodeShape(code: string) {
    && |code| <= 4
    && (forall i :: 0 <= i < |code| ==> !IsAsciiLower(code[i]))
    && (code != [] ==> !IsSpace(code[0]))
  }

  /** `code` is the first four characters of `field` (all of them when it is shorter), upper-cased. */
  predicate IsCodeOf(code: string, field: string) {
    && |code| == (if |field| < 4 then |field| else 4)
    && forall i :: 0 <= i < |code| ==> code[i] == UpperChar(field[i])
  }

  /**
   * The code a single line of tool output yields: a line mentioning
   * "Game code" with at least three tab-separated fields gives the first four
   * characters of its stripped third field, upper-cased; any other line is
   * skipped.
   */
  function LineCode(line: string): (r: Option<string>)
    ensures r.Some? <==> Contains(line, GameCodeLabel) && Occurrences(line, '\t') >= 2
    ensures r.Some? ==> CodeShape(r.value)
    ensures r.Some? ==> IsCodeOf(r.value, Strip(Split(line, '\t')[2]))
  {
    if !Contains(line, GameCodeLabel) then None
    else
      var parts := Split(line, '\t');
      if |parts| >= 3 then
        var code := Upper(Take4(Strip(parts[2])));
        assert code != [] ==> code[0] == UpperChar(Strip(parts[2])[0]);
        Some(code)
      else None
  }

  /** Line `i` is the first line that yields a code. */
  predicate FirstCodeAt(lines: seq<string>, i: int) {
    && 0 <= i < |lines|
    && LineCode(lines[i]).Some?
    && forall j :: 0 <= j < i ==> LineCode(lines[j]).None?
  }

  /** No line yields a code. */
  predicate NoCodeLine(lines: seq<string>) {
    forall i :: 0 <= i < |lines| ==> LineCode(lines[i]).None?
  }

  /** The code of the first line that yields one, or `None` when no line does. */
  function FirstCode(lines: seq<string>): (r: Option<string>)
    ensures r.None? <==> NoCodeLine(lines)
    ensures r.Some? ==> CodeShape(r.value)
    decreases |lines|
  {
    if lines == [] then None
    else
      match LineCode(lines[0])
      case Some(code) => Some(code)
      case None =>
        var rest := FirstCode(lines[1..]);
        assert forall i :: 1 <= i < |lines| ==> lines[i] == lines[1..][i - 1];
        rest
  }

  /** A code found comes from the first qualifying line; lines before it are skipped. */
  lemma {:induction false} FirstCodeIsFirst(lines: seq<string>)
    requires FirstCode(lines).Some?
    ensures exists i :: FirstCodeAt(lines, i) && LineCode(lines[i]) == FirstCode(lines)
    decreases |lines|
  {
    if LineCode(lines[0]).Some? {
      assert FirstCodeAt(lines, 0);
    } else {
      FirstCodeIsFirst(lines[1..]);
      var i :| FirstCodeAt(lines[1..], i) && LineCode(lines[1..][i]) == FirstCode(lines[1..]);
      assert FirstCodeAt(lines, i + 1);
    }
  }

  /**
   * The code parsed from the tool's output. A `None` output stands for a tool
   * that was not found or exited with an error status; the result is `None`
   * then, and also for output without a qualifying line.
   */
  function GameCode(toolOutput: Option<string>): (r: Option<string>)
    ensures r.None? <==> (toolOutput.None? || NoCodeLine(SplitLines(toolOutput.value)))
    ensures r.Some? ==> CodeShape(r.value)
  {
    match toolOutput
    case None => None
    case Some(text) => FirstCode(SplitLines(text))
  }

  lemma FirstCodeStep(lines: seq<string>, i: nat)
    requires i < |lines|
    ensures FirstCode(lines[i..]) == if LineCode(lines[i]).Some? then LineCode(lines[i]) else FirstCode(lines[i + 1..])
  {
    assert lines[i..][0] == lines[i];
    assert lines[i..][1..] == lines[i + 1..];
  }

  /** `extract_game_code`: a scan of the output lines that stops at the first code. */
  method ExtractGameCode(toolOutput: Option<string>) returns (code: Option<string>)
    ensures code == GameCode(toolOutput)
    ensures code.Some? ==> CodeShape(code.value)
  {
    if toolOutput.None? {
      return None;
    }
    var lines := SplitLines(toolOutput.value);
    var i := 0;
    while i < |lines|
      invariant 0 <= i <= |lines|
      invariant FirstCode(lines) == FirstCode(lines[i..])
    {
      var line := lines[i];
      FirstCodeStep(lines, i);
      if Contains(line, GameCodeLabel) {
        var parts := Split(line, '\t');
        if |parts| >= 3 {
          var full := Strip(parts[2]);
          assert LineCode(line) == Some(Upper(Take4(full)));
          return Some(Upper(Take4(full)));
        }
      }
      i := i + 1;
    }
    return None;
  }

  const ExampleCodeField := "IPKE (NTR-IPKE-USA)"

  /** The documented example line of `ndstool -i` output. */
  const ExampleLine := "0x0C" + "\t" + "Game code                " + "\t" + ExampleCodeField

  lemma ExampleLineMentionsLabel()
    ensures Contains(ExampleLine, GameCodeLabel)
  {
    assert OccursAt(ExampleLine, GameCodeLabel, 5);
    ContainsIff(ExampleLine, GameCodeLabel);
  }

  /** Three tab-free fields joined by tabs split back into those fields. */
  lemma {:induction false} SplitThreeFields(a: string, b: string, c: string)
    requires '\t' !in a && '\t' !in b && '\t' !in c
    ensures Split(a + "\t" + b + "\t" + c, '\t') == [a, b, c]
  {
    SplitNoSeparator(c, '\t');
    SplitAfterField(b, '\t', c);
    SplitAfterField(a, '\t', b + "\t" + c);
    assert a + "\t" + b + "\t" + c == a + ['\t'] + (b + ['\t'] + c);
  }

  lemma ExampleLineFields()
    ensures Split(ExampleLine, '\t') == ["0x0C", "Game code                ", ExampleCodeField]
  {
    SplitThreeFields("0x0C", "Game code                ", ExampleCodeField);
  }

  /** The documented example line yields "IPKE". */
  lemma ExampleLineCode()
    ensures LineCode(ExampleLine) == Some("IPKE")
  {
    ExampleLineMentionsLabel();
    ExampleLineFields();
    assert LeadingSpaces(ExampleCodeField) == 0;
    assert TrailingSpaces(ExampleCodeField) == 0;
    assert Strip(ExampleCodeField) == ExampleCodeField;
    assert Take4(ExampleCodeField) == "IPKE";
    assert Upper("IPKE") == "IPKE";
  }

  /** A "Game code" line without enough tab fields is passed over for a later one. */
  lemma ShortLineSkipped(first: string, rest: seq<string>)
    requires Occurrences(first, '\t') < 2
    ensures FirstCode([first] + rest) == FirstCode(rest)
  {
    assert ([first] + rest)[1..] == rest;
  }

  // ---------------------------------------------------------------------------
  // generate_gameid
  // ---------------------------------------------------------------------------

  /** All or nothing: a missing or empty code, or a missing or empty JAMCRC, gives no GameID. */
  function GameIdOf(code: Option<string>, jamcrc: Option<string>): (r: Option<string>)
    ensures r.Some? <==> code.Some? && code.value != "" && jamcrc.Some? && jamcrc.value != ""
  {
    if code.None? || code.value == "" then None
    else if jamcrc.None? || jamcrc.value == "" then None
    else Some(code.value + " " + jamcrc.value)
  }

  /** The GameID of a ROM whose `ndstool -i` output is `toolOutput` and whose bytes are `rom`. */
  function GameId(toolOutput: Option<string>, rom: seq<Byte>): (r: Option<string>)
    ensures r.Some? <==> GameCode(toolOutput).Some? && GameCode(toolOutput).value != "" && rom != []
    ensures r.Some? ==> 9 < |r.value| <= 13
  {
    GameIdOf(GameCode(toolOutput), CalculateJamcrc(rom, HeaderSize))
  }

  /** `generate_gameid`: the code first, the fingerprint only when there is a code. */
  method GenerateGameId(toolOutput: Option<string>, rom: seq<Byte>) returns (id: Option<string>)
    ensures id == GameId(toolOutput, rom)
  {
    var code := ExtractGameCode(toolOutput);
    if code.None? || code.value == "" {
      return None;
    }
    var jamcrc := CalculateJamcrc(rom, HeaderSize);
    if jamcrc.None? || jamcrc.value == "" {
      return None;
    }
    return Some(code.value + " " + jamcrc.value);
  }

  /** Splitting code and fingerprint joined by one space gives both back, when neither holds a space. */
  lemma SplitSpacedPair(code: string, jamcrc: string)
    requires ' ' !in code && ' ' !in jamcrc
    ensures Split(code + " " + jamcrc, ' ') == [code, jamcrc]
  {
    SplitJoin([code, jamcrc], ' ');
    assert Join([code, jamcrc], ' ') == code + " " + jamcrc;
  }

  /** Removing the spaces of code and fingerprint joined by one space leaves the code's other characters and the fingerprint. */
  lemma RemoveSpacesSpacedPair(code: string, jamcrc: string)
    requires ' ' !in jamcrc
    ensures RemoveSpaces(code + " " + jamcrc) == RemoveSpaces(code) + jamcrc
  {
    var space := " ";
    assert RemoveSpaces(code + space) == RemoveSpaces(code) by {
      RemoveSpacesAppend(code, space);
      assert RemoveSpaces(space) == [];
    }
    assert RemoveSpaces(jamcrc) == jamcrc by {
      RemoveSpacesNoSpace(jamcrc);
    }
    RemoveSpacesAppend(code + space, jamcrc);
  }

  /** The fingerprint part of a GameID: eight characters, none of them a space. */
  lemma JamcrcHasNoSpace(rom: seq<Byte>)
    requires CalculateJamcrc(rom, HeaderSize).Some?
    ensures |CalculateJamcrc(rom, HeaderSize).value| == 8
    ensures ' ' !in CalculateJamcrc(rom, HeaderSize).value
  {
    var jamcrc := CalculateJamcrc(rom, HeaderSize).value;
    assert forall i :: 0 <= i < 8 ==> IsUpperHexDigit(jamcrc[i]);
  }

  /**
   * A GameID is the code, one space and the eight fingerprint digits: at most
   * 13 characters, with the space right after the code; splitting on the
   * space gives back the two parts when the code holds no space, and removing
   * the spaces leaves the code's other characters followed by the fingerprint.
   */
  lemma GameIdShape(toolOutput: Option<string>, rom: seq<Byte>)
    requires GameId(toolOutput, rom).Some?
    ensures var id := GameId(toolOutput, rom).value;
      var code := GameCode(toolOutput).value;
      var jamcrc := CalculateJamcrc(rom, HeaderSize).value;
      && 0 < |code| <= 4
      && |id| == |code| + 9 <= 13
      && id[..|code|] == code && id[|code|] == ' ' && id[|code| + 1..] == jamcrc
      && (' ' !in code ==> Split(id, ' ') == [code, jamcrc])
      && RemoveSpaces(id) == RemoveSpaces(code) + jamcrc
  {
    var code := GameCode(toolOutput).value;
    var jamcrc := CalculateJamcrc(rom, HeaderSize).value;
    JamcrcHasNoSpace(rom);
    var id := GameId(toolOutput, rom).value;
    assert id == code + " " + jamcrc;
    assert id[..|code|] == code && id[|code| + 1..] == jamcrc;
    if ' ' !in code {
      SplitSpacedPair(code, jamcrc);
    }
    RemoveSpacesSpacedPair(code, jamcrc);
  }

  /** The example ROM: game code "IPKE" and a header holding the ASCII digits "123456789". */
  lemma ExampleGameId()
    ensures GameIdOf(Some("IPKE"), CalculateJamcrc([0x31, 0x32, 0x33, 0x34, 0x35, 0x36, 0x37, 0x38, 0x39], HeaderSize))
         == Some("IPKE 340BC6D9")
  {
    JamcrcExample();
    assert "IPKE" + " " + "340BC6D9" == "IPKE 340BC6D9";
  }
}
