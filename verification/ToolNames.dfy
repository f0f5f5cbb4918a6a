/** Tool names of the form `mcp__<server>__<tool>`. */
module ToolNames {
  import opened Text
  import opened NameShape
  import Sanitizer

  const SEP := "__"

  datatype Parsed = Parsed(server: string, tool: string, isMCP: bool)

  function FormatToolName(server: string, tool: string): string {
    "mcp__" + server + "__" + tool
  }

  function ParseToolName(name: string): Parsed {
    if "mcp__" <= name then
      var parts := Split(name, SEP);
      if |parts| >= 3 then Parsed(parts[1], Join(parts[2..], SEP), true)
      else Parsed("", name, false)
    else Parsed("", name, false)
  }

  /** The separator cannot be found inside the server name, nor straddling its end. */
  ghost predicate Separable(server: string) {
    NoRun(server, '_') && (server != "" ==> server[|server| - 1] != '_')
  }

  /** A separable first piece is split off whole ... */
  lemma {:induction false} SplitSeparable(piece: string, rest: string)
    requires Separable(piece)
    ensures Split(piece + SEP + rest, SEP) == [piece] + Split(rest, SEP)
    decreases |piece|
  {
    var s := piece + SEP + rest;
    if piece == "" {
      assert s[2..] == rest;
    } else {
      assert s[0] == piece[0] && s[1] == if |piece| > 1 then piece[1] else '_';
      assert !(SEP <= s) by { assert SEP[0] == '_' && SEP[1] == '_'; }
      assert s[1..] == piece[1..] + SEP + rest;
      assert Separable(piece[1..]) by {
        forall i | 0 <= i < |piece[1..]| - 1 ensures !(piece[1..][i] == '_' && piece[1..][i + 1] == '_') {
          assert piece[1..][i] == piece[i + 1] && piece[1..][i + 1] == piece[i + 2];
        }
      }
      SplitSeparable(piece[1..], rest);
      assert piece == [piece[0]] + piece[1..];
    }
  }

  /** ... and the first piece of any split is separable, or is all there is. */
  lemma {:induction false} FirstPieceSeparable(s: string)
    ensures |Split(s, SEP)| > 1 ==> Separable(Split(s, SEP)[0])
    ensures Split(s, SEP)[0] <= s
    ensures |Split(s, SEP)| == 1 ==> Split(s, SEP)[0] == s
    ensures |Split(s, SEP)| > 1 ==> Split(s, SEP)[0] + SEP <= s
    decreases |s|
  {
    if s != "" && !(SEP <= s) {
      FirstPieceSeparable(s[1..]);
      var rest := Split(s[1..], SEP);
      var first := [s[0]] + rest[0];
      assert s == [s[0]] + s[1..];
      if |rest| > 1 {
        assert first + SEP == [s[0]] + (rest[0] + SEP);
        if first[0] == '_' {
          assert s[1] != '_' by { assert s[..2] == [s[0], s[1]]; }
          if rest[0] == "" {
            assert false;
          }
          assert rest[0][0] == s[1];
        }
        forall i | 0 <= i < |first| - 1 ensures !(first[i] == '_' && first[i + 1] == '_') {
          if i > 0 {
            assert first[i] == rest[0][i - 1] && first[i + 1] == rest[0][i];
          }
        }
      }
    }
  }

  lemma SplitPrefix(rest: string)
    ensures Split("mcp__" + rest, SEP) == ["mcp"] + Split(rest, SEP)
  {
    assert "mcp__" + rest == "mcp" + SEP + rest;
    SplitSeparable("mcp", rest);
  }

  /** Whatever the parser accepts, the printer gives back. */
  lemma FormatUndoesParse(name: string)
    ensures var p := ParseToolName(name);
            if p.isMCP then FormatToolName(p.server, p.tool) == name
            else p.server == "" && p.tool == name
  {
    var p := ParseToolName(name);
    if p.isMCP {
      var rest := name[5..];
      assert name == "mcp__" + rest;
      SplitPrefix(rest);
      var parts := Split(rest, SEP);
      assert Split(name, SEP)[1] == parts[0] && Split(name, SEP)[2..] == parts[1..];
      JoinUndoesSplit(rest, SEP);
      assert rest == p.server + SEP + p.tool;
    }
  }

  /** The names the parser accepts: the prefix, and a second separator somewhere after it. */
  lemma Accepted(name: string)
    ensures ParseToolName(name).isMCP <==> exists server, tool :: name == FormatToolName(server, tool)
  {
    FormatUndoesParse(name);
    if server, tool :| name == FormatToolName(server, tool) {
      assert name == "mcp__" + (server + SEP + tool);
      SplitPrefix(server + SEP + tool);
      if |Split(server + SEP + tool, SEP)| == 1 {
        NoSeparatorLeft(server, tool);
      }
    }
  }

  lemma {:induction false} NoSeparatorLeft(a: string, b: string)
    ensures |Split(a + SEP + b, SEP)| > 1
    decreases |a|
  {
    if a == "" {
      assert SEP <= a + SEP + b;
    } else {
      assert (a + SEP + b)[1..] == a[1..] + SEP + b;
      NoSeparatorLeft(a[1..], b);
      var s := a + SEP + b;
      if SEP <= s {
        assert |Split(s, SEP)| == 1 + |Split(s[2..], SEP)|;
      }
    }
  }

  /** What the parser makes of a printed name depends on where the rest is split first. */
  lemma ParseOfFormat(server: string, tool: string)
    ensures var parts := Split(server + SEP + tool, SEP);
            |parts| >= 2 && ParseToolName(FormatToolName(server, tool)) == Parsed(parts[0], Join(parts[1..], SEP), true)
  {
    var name, rest := FormatToolName(server, tool), server + SEP + tool;
    var parts := Split(rest, SEP);
    assert name == "mcp__" + rest;
    SplitPrefix(rest);
    NoSeparatorLeft(server, tool);
    assert Split(name, SEP)[1] == parts[0] && Split(name, SEP)[2..] == parts[1..];
  }

  /** Parsing undoes formatting exactly for separable server names, whatever the tool is called. */
  lemma ParseUndoesFormat(server: string, tool: string)
    ensures ParseToolName(FormatToolName(server, tool)) == Parsed(server, tool, true) <==> Separable(server)
    ensures ParseToolName("mcp__" + server + "__" + tool) == Parsed(server, tool, true) <==>
              (forall i :: 0 <= i < |server| - 1 && server[i] == '_' ==> server[i + 1] != '_') && (server == "" || server[|server| - 1] != '_')
  {
    ParseOfFormat(server, tool);
    if Separable(server) {
      SplitSeparable(server, tool);
      assert Split(server + SEP + tool, SEP)[1..] == Split(tool, SEP);
      JoinUndoesSplit(tool, SEP);
    } else {
      FirstPieceSeparable(server + SEP + tool);
    }
  }

  /**
   So a sanitized server name survives the trip with every tool, unless truncation left an
   underscore at its end; and then it does with none.
   */
  lemma SanitizedNamesRoundTrip(r: string, maxLength: int, tool: string)
    requires Sanitizer.WellShaped(r, maxLength)
    ensures ParseToolName(FormatToolName(r, tool)) == Parsed(r, tool, true) <==> r[|r| - 1] != '_'
    ensures |r| != maxLength ==> r[|r| - 1] != '_'
  {
    ParseUndoesFormat(r, tool);
  }
}
