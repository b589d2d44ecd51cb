/**
 The JSON-with-comments stripper of internal/devcontainer/jsonc.go.

 The source makes one pass with a handful of flags and takes back, from its own output buffer,
 a comma that turns out to be trailing. Here that pass is proved equal to the two passes a
 reader would specify it by: drop the comments, then drop the trailing commas.
 */
module Jsonc {

  predicate IsBlank(c: char) {
    c == ' ' || c == '\t' || c == '\n' || c == '\r'
  }

  predicate IsCloser(c: char) {
    c == '}' || c == ']'
  }

  // -------------------------------------------------------------------------
  // The two-pass specification

  /** Where a scanner stands: in structure, in a string, just past a backslash in a string,
      in a line comment, or in a block comment. */
  datatype Mode = Code | Str | Esc | Line | Block

  /** The mode after a character of a string literal. */
  function AfterStringChar(m: Mode, c: char): Mode {
    if m == Esc then Str else if c == '\\' then Esc else if c == '"' then Code else Str
  }

  predicate PairAt(s: string, i: nat, c: char, d: char) {
    i + 1 < |s| && s[i] == c && s[i + 1] == d
  }

  /** First pass: the text from i on without its comments. A line comment's newline stays. */
  function WithoutComments(s: string, i: nat, m: Mode): string
    decreases |s| - i
  {
    if i >= |s| then ""
    else
      var c := s[i];
      match m
      case Line => if c == '\n' then [c] + WithoutComments(s, i + 1, Code) else WithoutComments(s, i + 1, Line)
      case Block =>
        if PairAt(s, i, '*', '/') then WithoutComments(s, i + 2, Code) else WithoutComments(s, i + 1, Block)
      case Code =>
        if PairAt(s, i, '/', '/') then WithoutComments(s, i + 2, Line)
        else if PairAt(s, i, '/', '*') then WithoutComments(s, i + 2, Block)
        else [c] + WithoutComments(s, i + 1, if c == '"' then Str else Code)
      case _ => [c] + WithoutComments(s, i + 1, AfterStringChar(m, c))
  }

  /** Whether the first character that is not blank closes an object or an array. */
  predicate ClosesNext(s: string) {
    s != "" && (IsCloser(s[0]) || (IsBlank(s[0]) && ClosesNext(s[1..])))
  }

  /** Second pass, over text with no comments: drop each comma outside a string whose next
      character that is not blank is a closer. */
  function WithoutTrailingCommas(s: string, m: Mode): string {
    if s == "" then ""
    else
      var c, rest := s[0], s[1..];
      if m == Str || m == Esc then [c] + WithoutTrailingCommas(rest, AfterStringChar(m, c))
      else if c == ',' && ClosesNext(rest) then WithoutTrailingCommas(rest, Code)
      else [c] + WithoutTrailingCommas(rest, if c == '"' then Str else Code)
  }

  function Stripped(src: string): string {
    WithoutTrailingCommas(WithoutComments(src, 0, Code), Code)
  }

  // -------------------------------------------------------------------------
  // The one-pass scanner

  /** Blanks in front of a text do not change which commas in it are trailing. */
  lemma {:induction false} BlanksPassThrough(blanks: string, s: string)
    requires forall i :: 0 <= i < |blanks| ==> IsBlank(blanks[i])
    ensures WithoutTrailingCommas(blanks + s, Code) == blanks + WithoutTrailingCommas(s, Code)
    ensures ClosesNext(blanks + s) <==> ClosesNext(s)
  {
    if blanks == "" {
      assert blanks + s == s;
    } else {
      assert (blanks + s)[1..] == blanks[1..] + s;
      BlanksPassThrough(blanks[1..], s);
    }
  }

  /** A pending comma is settled by the next character that is not blank. */
  lemma {:induction false} CommaSettled(blanks: string, s: string)
    requires forall i :: 0 <= i < |blanks| ==> IsBlank(blanks[i])
    ensures ClosesNext(s) ==>
              WithoutTrailingCommas("," + blanks + s, Code) == blanks + WithoutTrailingCommas(s, Code)
    ensures !ClosesNext(s) ==>
              WithoutTrailingCommas("," + blanks + s, Code) == "," + blanks + WithoutTrailingCommas(s, Code)
  {
    var t, u := "," + blanks + s, WithoutTrailingCommas(s, Code);
    BlanksPassThrough(blanks, s);
    assert t[0] == ',' && t[1..] == blanks + s;
    assert [','] + (blanks + u) == "," + blanks + u;
  }

  /** What the whole output will be, given the output so far, the position in it of a comma that
      may still turn out to be trailing, and the comment-free text still to come. */
  ghost function Completed(out: string, lastComma: int, rest: string, m: Mode): string
    requires lastComma < |out|
  {
    if lastComma < 0 then out + WithoutTrailingCommas(rest, m)
    else out[..lastComma] + WithoutTrailingCommas(out[lastComma..] + rest, Code)
  }

  /** A comma is pending only in structure, with nothing but blanks after it. */
  ghost predicate Pending(out: string, lastComma: int, m: Mode) {
    && -1 <= lastComma < |out|
    && (0 <= lastComma ==>
          && m != Str && m != Esc
          && out[lastComma] == ','
          && forall i :: lastComma < i < |out| ==> IsBlank(out[i]))
  }

  /** Dropping or keeping the pending comma, as the source's flushComma does. */
  method FlushComma(out: string, lastComma: int, keep: bool, ghost rest: string) returns (o: string)
    requires Pending(out, lastComma, Code)
    requires 0 <= lastComma ==> (keep <==> !ClosesNext(rest))
    ensures Completed(o, -1, rest, Code) == Completed(out, lastComma, rest, Code)
    ensures lastComma < 0 || keep ==> o == out
  {
    o := out;
    if lastComma < 0 {
      return;
    }
    ghost var blanks := out[lastComma + 1..];
    CommaSettled(blanks, rest);
    assert out == out[..lastComma] + ("," + blanks);
    assert out[lastComma..] + rest == "," + blanks + rest;
    if keep {
      calc {
        Completed(out, lastComma, rest, Code);
        out[..lastComma] + ("," + blanks + WithoutTrailingCommas(rest, Code));
        (out[..lastComma] + ("," + blanks)) + WithoutTrailingCommas(rest, Code);
        Completed(o, -1, rest, Code);
      }
    } else {
      o := out[..lastComma] + out[lastComma + 1..];
      calc {
        Completed(out, lastComma, rest, Code);
        out[..lastComma] + (blanks + WithoutTrailingCommas(rest, Code));
        (out[..lastComma] + blanks) + WithoutTrailingCommas(rest, Code);
        Completed(o, -1, rest, Code);
      }
    }
  }

  /** Writing one character that no comma is waiting on. */
  lemma Emitted(out: string, c: char, rest: string, m: Mode, m': Mode)
    requires WithoutTrailingCommas([c] + rest, m) == [c] + WithoutTrailingCommas(rest, m')
    ensures Completed(out + [c], -1, rest, m') == Completed(out, -1, [c] + rest, m)
  {
  }

  /** A comma written now becomes the pending one. */
  lemma Opened(out: string, rest: string)
    ensures Completed(out + [','], |out|, rest, Code) == Completed(out, -1, [','] + rest, Code)
  {
  }

  /** A character of structure that is not blank: it settles the pending comma, and a comma
      becomes the pending one. */
  method Structure(out: string, lastComma: int, c: char, ghost rest: string) returns (o: string, comma: int)
    requires !IsBlank(c)
    requires Pending(out, lastComma, Code)
    ensures Pending(o, comma, if c == '"' then Str else Code)
    ensures
      var m := if c == '"' then Str else Code;
      Completed(o, comma, rest, m) == Completed(out, lastComma, [c] + rest, Code)
  {
    o := FlushComma(out, lastComma, !IsCloser(c), [c] + rest);
    if c == ',' {
      comma := |o|;
      Opened(o, rest);
    } else {
      comma := -1;
      Emitted(o, c, rest, Code, if c == '"' then Str else Code);
    }
    o := o + [c];
  }

  lemma Started(text: string)
    ensures Completed("", -1, text, Code) == WithoutTrailingCommas(text, Code)
  {
  }

  /** A comma still pending when the text ends stays. */
  lemma {:induction false} CommaAtEnd(blanks: string)
    requires forall i :: 0 <= i < |blanks| ==> IsBlank(blanks[i])
    ensures WithoutTrailingCommas([','] + blanks, Code) == [','] + blanks
  {
    BlanksPassThrough(blanks, []);
    assert blanks + [] == blanks;
    assert ([','] + blanks)[1..] == blanks;
  }

  lemma {:induction false} Finished(out: string, lastComma: int, rest: string, m: Mode)
    requires Pending(out, lastComma, m)
    requires rest == []
    ensures Completed(out, lastComma, rest, TextMode(m)) == out
  {
    if lastComma < 0 {
      assert WithoutTrailingCommas(rest, TextMode(m)) == [];
    } else {
      var blanks := out[lastComma + 1..];
      CommaAtEnd(blanks);
      assert out[lastComma..] + rest == [','] + blanks;
      assert out == out[..lastComma] + ([','] + blanks);
    }
  }

  /** A blank is written and settles nothing. */
  method Blank(out: string, lastComma: int, c: char, ghost rest: string) returns (o: string)
    requires IsBlank(c)
    requires Pending(out, lastComma, Code)
    ensures o == out + [c]
    ensures Completed(o, lastComma, rest, Code) == Completed(out, lastComma, [c] + rest, Code)
  {
    o := out + [c];
    if lastComma < 0 {
      Emitted(out, c, rest, Code, Code);
    } else {
      assert o[..lastComma] == out[..lastComma];
      assert o[lastComma..] + rest == out[lastComma..] + ([c] + rest);
    }
  }

  /** The mode the second pass is in when the first is in m: comments read as structure. */
  ghost function TextMode(m: Mode): Mode {
    if m == Str || m == Esc then m else Code
  }

  /** A character of a string literal is copied as it is. */
  method InLiteral(out: string, c: char, ghost m: Mode, ghost rest: string) returns (o: string)
    requires m == Str || m == Esc
    ensures o == out + [c]
    ensures Completed(o, -1, rest, TextMode(AfterStringChar(m, c))) == Completed(out, -1, [c] + rest, m)
  {
    o := out + [c];
    Emitted(out, c, rest, m, AfterStringChar(m, c));
  }

  /** The scanner's four flags as one mode. */
  function Flags(inLine: bool, inBlock: bool, inString: bool, escaped: bool): Mode {
    if inLine then Line else if inBlock then Block else if inString then (if escaped then Esc else Str) else Code
  }

  method StripJsonc(src: string) returns (out: string)
    ensures out == Stripped(src)
  {
    hide WithoutTrailingCommas, Completed;
    var inString, escaped, inLine, inBlock := false, false, false, false;
    var lastComma := -1;
    out := "";
    var i := 0;
    Started(WithoutComments(src, 0, Code));
    while i < |src|
      invariant 0 <= i <= |src|
      invariant !(inLine && inBlock) && !(inLine && inString) && !(inBlock && inString)
      invariant escaped ==> inString
      invariant Pending(out, lastComma, Flags(inLine, inBlock, inString, escaped))
      invariant
        var m := Flags(inLine, inBlock, inString, escaped);
        Completed(out, lastComma, WithoutComments(src, i, m), TextMode(m)) == Stripped(src)
    {
      var c := src[i];
      if inLine {
        if c == '\n' {
          inLine := false;
          out := Blank(out, lastComma, c, WithoutComments(src, i + 1, Code));
        }
      } else if inBlock {
        if c == '*' && i + 1 < |src| && src[i + 1] == '/' {
          inBlock := false;
          i := i + 1;
        }
      } else if inString {
        ghost var m := Flags(false, false, true, escaped);
        out := InLiteral(out, c, m, WithoutComments(src, i + 1, AfterStringChar(m, c)));
        if escaped {
          escaped := false;
        } else if c == '\\' {
          escaped := true;
        } else if c == '"' {
          inString := false;
        }
      } else if c == '/' && i + 1 < |src| && src[i + 1] == '/' {
        inLine := true;
        i := i + 1;
      } else if c == '/' && i + 1 < |src| && src[i + 1] == '*' {
        inBlock := true;
        i := i + 1;
      } else if IsBlank(c) {
        out := Blank(out, lastComma, c, WithoutComments(src, i + 1, Code));
      } else {
        ghost var rest := WithoutComments(src, i + 1, if c == '"' then Str else Code);
        out, lastComma := Structure(out, lastComma, c, rest);
        inString := c == '"';
      }
      i := i + 1;
    }
    Finished(out, lastComma, WithoutComments(src, i, Flags(inLine, inBlock, inString, escaped)), Flags(inLine, inBlock, inString, escaped));
  }

  // -------------------------------------------------------------------------
  // What a caller relies on

  /** The string literals of comment-free text, in order, each with its quotes. */
  function Literals(s: string, m: Mode, open: string): seq<string> {
    if s == "" then (if open == "" then [] else [open])
    else
      var c, rest := s[0], s[1..];
      if m == Str || m == Esc then
        var m' := AfterStringChar(m, c);
        if m' == Code then [open + [c]] + Literals(rest, Code, "") else Literals(rest, m', open + [c])
      else if c == '"' then Literals(rest, Str, [c])
      else Literals(rest, Code, "")
  }

  /** The string literals of text that may hold comments: a quote inside a comment opens nothing. */
  function SourceLiterals(s: string, i: nat, m: Mode, open: string): seq<string>
    decreases |s| - i
  {
    if i >= |s| then (if open == "" then [] else [open])
    else
      var c := s[i];
      match m
      case Line => SourceLiterals(s, i + 1, if c == '\n' then Code else Line, "")
      case Block =>
        if PairAt(s, i, '*', '/') then SourceLiterals(s, i + 2, Code, "") else SourceLiterals(s, i + 1, Block, "")
      case Code =>
        if PairAt(s, i, '/', '/') then SourceLiterals(s, i + 2, Line, "")
        else if PairAt(s, i, '/', '*') then SourceLiterals(s, i + 2, Block, "")
        else if c == '"' then SourceLiterals(s, i + 1, Str, [c])
        else SourceLiterals(s, i + 1, Code, "")
      case _ =>
        var m' := AfterStringChar(m, c);
        if m' == Code then [open + [c]] + SourceLiterals(s, i + 1, Code, "")
        else SourceLiterals(s, i + 1, m', open + [c])
  }

  lemma {:induction false} CommentsKeepLiterals(s: string, i: nat, m: Mode, open: string)
    requires m != Str && m != Esc ==> open == ""
    ensures Literals(WithoutComments(s, i, m), TextMode(m), open) == SourceLiterals(s, i, m, open)
    decreases |s| - i
  {
    if i < |s| {
      var c, t := s[i], WithoutComments(s, i, m);
      if m == Line {
        CommentsKeepLiterals(s, i + 1, if c == '\n' then Code else Line, "");
      } else if m == Block {
        CommentsKeepLiterals(s, if PairAt(s, i, '*', '/') then i + 2 else i + 1,
                             if PairAt(s, i, '*', '/') then Code else Block, "");
      } else if m == Code && PairAt(s, i, '/', '/') {
        CommentsKeepLiterals(s, i + 2, Line, "");
      } else if m == Code && PairAt(s, i, '/', '*') {
        CommentsKeepLiterals(s, i + 2, Block, "");
      } else {
        var m' := if m == Code then (if c == '"' then Str else Code) else AfterStringChar(m, c);
        assert t[1..] == WithoutComments(s, i + 1, m');
        CommentsKeepLiterals(s, i + 1, m', if m' == Code then "" else open + [c]);
        assert m == Code ==> open + [c] == [c];
      }
    }
  }

  lemma {:induction false} CommasKeepLiterals(s: string, m: Mode, open: string)
    requires m == Code || m == Str || m == Esc
    requires m == Code ==> open == ""
    ensures Literals(WithoutTrailingCommas(s, m), m, open) == Literals(s, m, open)
  {
    if s != "" {
      var c, t := s[0], WithoutTrailingCommas(s, m);
      var m' := if m == Code then (if c == '"' then Str else Code) else AfterStringChar(m, c);
      CommasKeepLiterals(s[1..], m', if m' == Code then "" else if m == Code then [c] else open + [c]);
      if !(m == Code && c == ',' && ClosesNext(s[1..])) {
        assert t[1..] == WithoutTrailingCommas(s[1..], m');
      }
    }
  }

  /** Every string literal survives byte for byte, and none appears. */
  lemma LiteralsSurvive(src: string)
    ensures Literals(Stripped(src), Code, "") == SourceLiterals(src, 0, Code, "")
  {
    CommentsKeepLiterals(src, 0, Code, "");
    CommasKeepLiterals(WithoutComments(src, 0, Code), Code, "");
  }

  /** No comment opens and no comma trails, outside strings, from i on. */
  ghost predicate Plain(s: string, i: nat, m: Mode)
    requires m == Code || m == Str || m == Esc
    decreases |s| - i
  {
    i >= |s| ||
    if m == Code then
      && !PairAt(s, i, '/', '/') && !PairAt(s, i, '/', '*')
      && !(s[i] == ',' && ClosesNext(s[i + 1..]))
      && Plain(s, i + 1, if s[i] == '"' then Str else Code)
    else
      Plain(s, i + 1, AfterStringChar(m, s[i]))
  }

  lemma {:induction false} CommentsOnlyShorten(s: string, i: nat, m: Mode)
    ensures |WithoutComments(s, i, m)| <= if i <= |s| then |s| - i else 0
    decreases |s| - i
  {
    if i < |s| {
      CommentsOnlyShorten(s, i + 1, Code);
      CommentsOnlyShorten(s, i + 1, Str);
      CommentsOnlyShorten(s, i + 1, Esc);
      CommentsOnlyShorten(s, i + 1, Line);
      CommentsOnlyShorten(s, i + 1, Block);
      CommentsOnlyShorten(s, i + 2, m);
      CommentsOnlyShorten(s, i + 2, Code);
      CommentsOnlyShorten(s, i + 2, Line);
      CommentsOnlyShorten(s, i + 2, Block);
    }
  }

  lemma {:induction false} CommasOnlyShorten(s: string, m: Mode)
    ensures |WithoutTrailingCommas(s, m)| <= |s|
  {
    if s != "" {
      CommasOnlyShorten(s[1..], Code);
      CommasOnlyShorten(s[1..], Str);
      CommasOnlyShorten(s[1..], Esc);
    }
  }

  /** From i on, the output is the input exactly when the input is plain. */
  lemma {:induction false} PlainFrom(s: string, i: nat, m: Mode)
    requires i <= |s|
    requires m == Code || m == Str || m == Esc
    ensures WithoutTrailingCommas(WithoutComments(s, i, m), m) == s[i..] <==> Plain(s, i, m)
    ensures Plain(s, i, m) ==> WithoutComments(s, i, m) == s[i..]
    decreases |s| - i
  {
    if i < |s| {
      var c, t := s[i], WithoutComments(s, i, m);
      CommasOnlyShorten(t, m);
      if m == Code && (PairAt(s, i, '/', '/') || PairAt(s, i, '/', '*')) {
        CommentsOnlyShorten(s, i + 2, if s[i + 1] == '/' then Line else Block);
      } else {
        var m' := if m == Code then (if c == '"' then Str else Code) else AfterStringChar(m, c);
        PlainFrom(s, i + 1, m');
        var t' := WithoutComments(s, i + 1, m');
        assert t == [c] + t' && t[1..] == t';
        assert s[i..] == [c] + s[i + 1..] && s[i..][1..] == s[i + 1..];
        CommentsOnlyShorten(s, i + 1, m');
        CommasOnlyShorten(t', m');
        if m == Code && c == ',' && ClosesNext(t') {
          assert |WithoutTrailingCommas(t, m)| < |s[i..]|;
        } else {
          assert WithoutTrailingCommas(t, m) == [c] + WithoutTrailingCommas(t', m');
          if WithoutTrailingCommas(t, m) == s[i..] {
            assert WithoutTrailingCommas(t, m)[1..] == WithoutTrailingCommas(t', m');
          }
        }
      }
    }
  }

  /** Text is left alone exactly when it holds no comment and no trailing comma. */
  lemma UnchangedIffPlain(src: string)
    ensures Stripped(src) == src <==> Plain(src, 0, Code)
  {
    PlainFrom(src, 0, Code);
    assert src[0..] == src;
  }
}
