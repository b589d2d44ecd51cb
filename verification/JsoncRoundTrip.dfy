/**
 What stripping is for: a JSON value written with comments, blanks and trailing commas comes out as
 the same value written without comments and trailing commas (internal/devcontainer/jsonc.go).
 */
module JsoncRoundTrip {
  import opened Jsonc

  // -------------------------------------------------------------------------
  // JSON, and how it is written

  /** Word is a number, true, false or null; a text is held as it stands between its quotes. */
  datatype Json = Word(word: string) | Text(body: string) | List(items: seq<Json>) | Dict(fields: seq<Field>)
  datatype Field = Field(key: string, value: Json)

  datatype Token = TWord(word: string) | TText(body: string) | OpenList | CloseList | OpenDict | CloseDict | Comma | Colon

  function Tokens(j: Json): (ts: seq<Token>)
    ensures ts != [] && !Closes(ts[0]) && ts[0] != Comma
    decreases j
  {
    match j
    case Word(w) => [TWord(w)]
    case Text(b) => [TText(b)]
    case List(items) => [OpenList] + ItemTokens(items) + [CloseList]
    case Dict(fields) => [OpenDict] + FieldTokens(fields) + [CloseDict]
  }

  function ItemTokens(items: seq<Json>): seq<Token>
    decreases items
  {
    if items == [] then []
    else if |items| == 1 then Tokens(items[0])
    else Tokens(items[0]) + [Comma] + ItemTokens(items[1..])
  }

  function FieldTokens(fields: seq<Field>): seq<Token>
    decreases fields
  {
    if fields == [] then []
    else if |fields| == 1 then [TText(fields[0].key), Colon] + Tokens(fields[0].value)
    else [TText(fields[0].key), Colon] + Tokens(fields[0].value) + [Comma] + FieldTokens(fields[1..])
  }

  predicate Closes(t: Token) {
    t == CloseList || t == CloseDict
  }

  function Spelled(t: Token): string {
    match t
    case TWord(w) => w
    case TText(b) => "\"" + b + "\""
    case OpenList => "["
    case CloseList => "]"
    case OpenDict => "{"
    case CloseDict => "}"
    case Comma => ","
    case Colon => ":"
  }

  /** What a file is made of: tokens, and between them blanks, comments and trailing commas. */
  datatype Piece = Tok(token: Token) | Space(c: char) | LineComment(text: string) | BlockComment(text: string) | Trailing

  /** Inside a string, from the given mode on, the body does not close it and does not end in a
      backslash. */
  ghost predicate StaysOpen(body: string, m: Mode) {
    if body == "" then m == Str else var n := AfterStringChar(m, body[0]); n != Code && StaysOpen(body[1..], n)
  }

  predicate WordChar(c: char) {
    && c != '"' && c != '/' && c != ',' && c != ':' && c != '[' && c != ']' && c != '{' && c != '}'
    && c != ' ' && c != '\t' && c != '\n' && c != '\r'
  }

  ghost predicate GoodToken(t: Token) {
    && (t.TWord? ==> t.word != "" && forall i :: 0 <= i < |t.word| ==> WordChar(t.word[i]))
    && (t.TText? ==> StaysOpen(t.body, Str))
  }

  ghost predicate GoodPiece(p: Piece) {
    match p
    case Tok(t) => GoodToken(t)
    case Space(c) => c == ' ' || c == '\t' || c == '\n' || c == '\r'
    case LineComment(text) => '\n' !in text
    case BlockComment(text) => forall i: nat :: i < |text| ==> !PairAt(text + "*/", i, '*', '/')
    case Trailing => true
  }

  ghost predicate Good(ps: seq<Piece>) {
    forall p :: p in ps ==> GoodPiece(p)
  }

  function Written(p: Piece): string {
    match p
    case Tok(t) => Spelled(t)
    case Space(c) => [c]
    case LineComment(text) => "//" + text + "\n"
    case BlockComment(text) => "/*" + text + "*/"
    case Trailing => ","
  }

  function File(ps: seq<Piece>): string {
    if ps == [] then "" else Written(ps[0]) + File(ps[1..])
  }

  /** The value the pieces are of. */
  function Meant(ps: seq<Piece>): seq<Token> {
    if ps == [] then [] else if ps[0].Tok? then [ps[0].token] + Meant(ps[1..]) else Meant(ps[1..])
  }

  /** Without comments; the newline that ends a line comment stays. */
  function Quiet(ps: seq<Piece>): seq<Piece> {
    if ps == [] then []
    else
      match ps[0]
      case LineComment(_) => [Space('\n')] + Quiet(ps[1..])
      case BlockComment(_) => Quiet(ps[1..])
      case _ => [ps[0]] + Quiet(ps[1..])
  }

  function Clean(ps: seq<Piece>): seq<Piece> {
    if ps == [] then [] else if ps[0].Trailing? then Clean(ps[1..]) else [ps[0]] + Clean(ps[1..])
  }

  /** The first piece that is not a blank or a comment closes a list or a dict. */
  ghost predicate CloserNext(ps: seq<Piece>) {
    ps != [] && (if ps[0].Tok? then Closes(ps[0].token) else !ps[0].Trailing? && CloserNext(ps[1..]))
  }

  /** Trailing commas are where they trail, and no other comma is. */
  ghost predicate CommasPlaced(ps: seq<Piece>) {
    ps == [] || (CommasPlaced(ps[1..]) && (ps[0].Trailing? ==> CloserNext(ps[1..])) && (ps[0] == Tok(Comma) ==> !CloserNext(ps[1..])))
  }

  // -------------------------------------------------------------------------
  // The first pass

  function Uncommented(t: string, m: Mode): string {
    WithoutComments(t, 0, m)
  }

  lemma {:induction false} FromHere(s: string, i: nat, m: Mode)
    requires i <= |s|
    ensures WithoutComments(s, i, m) == Uncommented(s[i..], m)
    decreases |s| - i
  {
    if i < |s| {
      var t := s[i..];
      assert t[0] == s[i] && t[1..] == s[i + 1..];
      assert forall c, d :: PairAt(t, 0, c, d) <==> PairAt(s, i, c, d);
      FromHereNext(s, i, Code);
      FromHereNext(s, i, Str);
      FromHereNext(s, i, Esc);
      FromHereNext(s, i, Line);
      FromHereNext(s, i, Block);
    }
  }

  lemma {:induction false} FromHereNext(s: string, i: nat, m: Mode)
    requires i < |s|
    ensures WithoutComments(s, i + 1, m) == WithoutComments(s[i..], 1, m)
    ensures i + 2 <= |s| ==> WithoutComments(s, i + 2, m) == WithoutComments(s[i..], 2, m)
    decreases |s| - i, 0
  {
    var t := s[i..];
    FromHere(s, i + 1, m);
    assert t[1..] == s[i + 1..];
    if i > 0 {
      FromHere(t, 1, m);
      if i + 2 <= |s| {
        FromHere(s, i + 2, m);
        FromHere(t, 2, m);
        assert t[2..] == s[i + 2..];
      }
    } else {
      assert t == s;
    }
  }

  /** One character at a time. */
  lemma {:induction false} OneStep(c: char, t: string, m: Mode)
    ensures (m == Str || m == Esc) ==> Uncommented([c] + t, m) == [c] + Uncommented(t, AfterStringChar(m, c))
    ensures m == Code && c != '/' ==> Uncommented([c] + t, m) == [c] + Uncommented(t, if c == '"' then Str else Code)
    ensures m == Line ==> Uncommented([c] + t, m) == if c == '\n' then [c] + Uncommented(t, Code) else Uncommented(t, Line)
    ensures m == Block && !PairAt([c] + t, 0, '*', '/') ==> Uncommented([c] + t, m) == Uncommented(t, Block)
  {
    var s := [c] + t;
    assert s[1..] == t;
    FromHere(s, 1, Code);
    FromHere(s, 1, Str);
    FromHere(s, 1, Esc);
    FromHere(s, 1, Line);
    FromHere(s, 1, Block);
  }

  lemma {:induction false} TwoSteps(t: string)
    ensures Uncommented("//" + t, Code) == Uncommented(t, Line)
    ensures Uncommented("/*" + t, Code) == Uncommented(t, Block)
    ensures Uncommented("*/" + t, Block) == Uncommented(t, Code)
  {
    var a, b, c := "//" + t, "/*" + t, "*/" + t;
    assert a[2..] == t && b[2..] == t && c[2..] == t;
    FromHere(a, 2, Line);
    FromHere(b, 2, Block);
    FromHere(c, 2, Code);
  }

  lemma {:induction false} WordPasses(w: string, rest: string)
    requires forall i :: 0 <= i < |w| ==> w[i] != '"' && w[i] != '/'
    ensures Uncommented(w + rest, Code) == w + Uncommented(rest, Code)
    decreases |w|
  {
    hide Uncommented;
    if w == "" {
      assert w + rest == rest;
    } else {
      assert w + rest == [w[0]] + (w[1..] + rest);
      OneStep(w[0], w[1..] + rest, Code);
      WordPasses(w[1..], rest);
      assert w + Uncommented(rest, Code) == [w[0]] + (w[1..] + Uncommented(rest, Code));
    }
  }

  lemma {:induction false} BodyPasses(body: string, rest: string, m: Mode)
    requires StaysOpen(body, m) && (m == Str || m == Esc)
    ensures Uncommented(body + ("\"" + rest), m) == body + ("\"" + Uncommented(rest, Code))
    decreases |body|
  {
    hide Uncommented;
    if body == "" {
      assert body + ("\"" + rest) == ['"'] + rest;
      OneStep('"', rest, m);
    } else {
      var n := AfterStringChar(m, body[0]);
      assert body + ("\"" + rest) == [body[0]] + (body[1..] + ("\"" + rest));
      OneStep(body[0], body[1..] + ("\"" + rest), m);
      BodyPasses(body[1..], rest, n);
      assert body + ("\"" + Uncommented(rest, Code)) == [body[0]] + (body[1..] + ("\"" + Uncommented(rest, Code)));
    }
  }

  lemma {:induction false} LinePasses(text: string, rest: string)
    requires '\n' !in text
    ensures Uncommented(text + ("\n" + rest), Line) == "\n" + Uncommented(rest, Code)
    decreases |text|
  {
    hide Uncommented;
    if text == "" {
      assert text + ("\n" + rest) == ['\n'] + rest;
      OneStep('\n', rest, Line);
    } else {
      assert text + ("\n" + rest) == [text[0]] + (text[1..] + ("\n" + rest));
      OneStep(text[0], text[1..] + ("\n" + rest), Line);
      LinePasses(text[1..], rest);
    }
  }

  lemma {:induction false} BlockPasses(text: string, rest: string)
    requires GoodPiece(BlockComment(text))
    ensures Uncommented(text + ("*/" + rest), Block) == Uncommented(rest, Code)
    decreases |text|
  {
    hide Uncommented;
    if text == "" {
      assert text + ("*/" + rest) == "*/" + rest;
      TwoSteps(rest);
    } else {
      var tail := text[1..];
      assert text + ("*/" + rest) == [text[0]] + (tail + ("*/" + rest));
      assert !PairAt(text + "*/", 0, '*', '/');
      assert (tail + ("*/" + rest))[0] == (text + "*/")[1];
      OneStep(text[0], tail + ("*/" + rest), Block);
      forall i: nat | i < |tail| ensures !PairAt(tail + "*/", i, '*', '/') {
        assert !PairAt(text + "*/", i + 1, '*', '/');
        assert (tail + "*/")[i] == (text + "*/")[i + 1] && (tail + "*/")[i + 1] == (text + "*/")[i + 2];
      }
      BlockPasses(tail, rest);
    }
  }

  lemma TokenPasses(t: Token, rest: string)
    requires GoodToken(t)
    ensures Uncommented(Spelled(t) + rest, Code) == Spelled(t) + Uncommented(rest, Code)
  {
    hide Uncommented;
    if t.TText? {
      assert Spelled(t) + rest == ['"'] + (t.body + ("\"" + rest));
      OneStep('"', t.body + ("\"" + rest), Code);
      BodyPasses(t.body, rest, Str);
      assert ['"'] + (t.body + ("\"" + Uncommented(rest, Code))) == Spelled(t) + Uncommented(rest, Code);
    } else {
      WordPasses(Spelled(t), rest);
    }
  }

  lemma PiecePasses(p: Piece, rest: string)
    requires GoodPiece(p)
    ensures Uncommented(Written(p) + rest, Code) ==
      (if p.LineComment? then "\n" else if p.BlockComment? then "" else Written(p)) + Uncommented(rest, Code)
  {
    hide Uncommented;
    match p
    case Tok(t) => TokenPasses(t, rest);
    case Space(c) => WordPasses([c], rest);
    case LineComment(text) =>
      assert Written(p) + rest == "//" + (text + ("\n" + rest));
      TwoSteps(text + ("\n" + rest));
      LinePasses(text, rest);
    case BlockComment(text) =>
      assert Written(p) + rest == "/*" + (text + ("*/" + rest));
      TwoSteps(text + ("*/" + rest));
      BlockPasses(text, rest);
      assert "" + Uncommented(rest, Code) == Uncommented(rest, Code);
    case Trailing => WordPasses(",", rest);
  }

  /** The first pass takes the comments out of a file and nothing else. */
  lemma {:induction false} CommentsGo(ps: seq<Piece>)
    requires Good(ps)
    ensures Uncommented(File(ps), Code) == File(Quiet(ps))
    decreases |ps|
  {
    if ps != [] {
      hide Uncommented, Written;
      assert ps[0] in ps && Good(ps[1..]);
      PiecePasses(ps[0], File(ps[1..]));
      CommentsGo(ps[1..]);
      SpaceIs('\n');
      match ps[0]
      case BlockComment(_) => assert "" + File(Quiet(ps[1..])) == File(Quiet(ps[1..]));
      case LineComment(_) => assert Quiet(ps)[1..] == Quiet(ps[1..]);
      case _ => assert Quiet(ps)[1..] == Quiet(ps[1..]);
    }
  }

  lemma SpaceIs(c: char)
    ensures Written(Space(c)) == [c]
  {
  }

  // -------------------------------------------------------------------------
  // The second pass

  /** No comments, and tokens and blanks that are good. */
  ghost predicate Calm(ps: seq<Piece>) {
    forall p :: p in ps ==> !p.LineComment? && !p.BlockComment? && GoodPiece(p)
  }

  lemma FirstChar(t: Token)
    requires GoodToken(t)
    ensures Spelled(t) != "" && (Closes(t) <==> IsCloser(Spelled(t)[0])) && !IsBlank(Spelled(t)[0])
    ensures Spelled(t)[0] == ',' <==> t == Comma
  {
    if t.TWord? {
      assert WordChar(t.word[0]);
    }
  }

  lemma {:induction false} CloserShows(ps: seq<Piece>)
    requires Calm(ps)
    ensures ClosesNext(File(ps)) <==> CloserNext(ps)
    decreases |ps|
  {
    if ps != [] {
      var p, rest := ps[0], ps[1..];
      assert p in ps && Calm(rest);
      CloserShows(rest);
      match p
      case Tok(t) =>
        FirstChar(t);
        assert File(ps)[0] == Spelled(t)[0];
      case Space(c) =>
        assert File(ps)[0] == c && File(ps)[1..] == File(rest);
      case Trailing =>
        assert File(ps)[0] == ',';
    }
  }

  lemma {:induction false} WordKept(w: string, rest: string)
    requires forall i :: 0 <= i < |w| ==> w[i] != '"' && w[i] != ','
    ensures WithoutTrailingCommas(w + rest, Code) == w + WithoutTrailingCommas(rest, Code)
    decreases |w|
  {
    if w == "" {
      assert w + rest == rest;
    } else {
      assert w + rest == [w[0]] + (w[1..] + rest) && (w + rest)[1..] == w[1..] + rest;
      WordKept(w[1..], rest);
      assert w + WithoutTrailingCommas(rest, Code) == [w[0]] + (w[1..] + WithoutTrailingCommas(rest, Code));
    }
  }

  lemma {:induction false} BodyKept(body: string, rest: string, m: Mode)
    requires StaysOpen(body, m) && (m == Str || m == Esc)
    ensures WithoutTrailingCommas(body + ("\"" + rest), m) == body + ("\"" + WithoutTrailingCommas(rest, Code))
    decreases |body|
  {
    if body == "" {
      assert body + ("\"" + rest) == ['"'] + rest && (['"'] + rest)[1..] == rest;
    } else {
      var s := body + ("\"" + rest);
      assert s[0] == body[0] && s[1..] == body[1..] + ("\"" + rest);
      BodyKept(body[1..], rest, AfterStringChar(m, body[0]));
      assert body + ("\"" + WithoutTrailingCommas(rest, Code)) == [body[0]] + (body[1..] + ("\"" + WithoutTrailingCommas(rest, Code)));
    }
  }

  lemma CommaDecides(rest: string)
    ensures WithoutTrailingCommas("," + rest, Code) ==
      if ClosesNext(rest) then WithoutTrailingCommas(rest, Code) else "," + WithoutTrailingCommas(rest, Code)
  {
    var s := "," + rest;
    assert s[0] == ',' && s[1..] == rest;
  }

  lemma TokenKept(t: Token, rest: string)
    requires GoodToken(t) && t != Comma
    ensures WithoutTrailingCommas(Spelled(t) + rest, Code) == Spelled(t) + WithoutTrailingCommas(rest, Code)
  {
    hide WithoutTrailingCommas;
    if t.TText? {
      var s := Spelled(t) + rest;
      assert s == ['"'] + (t.body + ("\"" + rest));
      QuoteOpens(t.body + ("\"" + rest));
      BodyKept(t.body, rest, Str);
      assert ['"'] + (t.body + ("\"" + WithoutTrailingCommas(rest, Code))) == Spelled(t) + WithoutTrailingCommas(rest, Code);
    } else {
      WordKept(Spelled(t), rest);
    }
  }

  lemma QuoteOpens(rest: string)
    ensures WithoutTrailingCommas(['"'] + rest, Code) == ['"'] + WithoutTrailingCommas(rest, Str)
  {
    assert (['"'] + rest)[1..] == rest;
  }

  /** The second pass takes the trailing commas out and nothing else. */
  lemma {:induction false} TrailingGo(ps: seq<Piece>)
    requires Calm(ps) && CommasPlaced(ps)
    ensures WithoutTrailingCommas(File(ps), Code) == File(Clean(ps))
    decreases |ps|
  {
    if ps != [] {
      hide WithoutTrailingCommas, Spelled;
      var p, rest := ps[0], ps[1..];
      assert p in ps && Calm(rest);
      TrailingGo(rest);
      CloserShows(rest);
      CommaDecides(File(rest));
      assert !p.Trailing? ==> Clean(ps)[1..] == Clean(rest);
      match p
      case Tok(t) =>
        if t == Comma {
          CommaIs();
        } else {
          TokenKept(t, File(rest));
        }
      case Space(c) => WordKept([c], File(rest));
      case Trailing =>
    }
  }

  lemma CommaIs()
    ensures Spelled(Comma) == ","
  {
  }

  // -------------------------------------------------------------------------
  // Both

  lemma {:induction false} QuietIsCalm(ps: seq<Piece>)
    requires Good(ps)
    ensures Calm(Quiet(ps)) && Meant(Quiet(ps)) == Meant(ps) && (CloserNext(Quiet(ps)) <==> CloserNext(ps))
    decreases |ps|
  {
    if ps != [] {
      var rest := ps[1..];
      assert ps[0] in ps && Good(rest);
      QuietIsCalm(rest);
      if !ps[0].BlockComment? {
        var first := if ps[0].LineComment? then Space('\n') else ps[0];
        assert Quiet(ps) == [first] + Quiet(rest) && Quiet(ps)[1..] == Quiet(rest);
      }
    }
  }

  lemma {:induction false} QuietKeepsCommas(ps: seq<Piece>)
    requires Good(ps) && CommasPlaced(ps)
    ensures CommasPlaced(Quiet(ps))
    decreases |ps|
  {
    if ps != [] {
      var rest := ps[1..];
      assert ps[0] in ps && Good(rest);
      QuietKeepsCommas(rest);
      QuietIsCalm(rest);
      if !ps[0].BlockComment? {
        assert Quiet(ps)[1..] == Quiet(rest);
      }
    }
  }

  lemma {:induction false} CleanIsPlain(ps: seq<Piece>)
    requires Calm(ps)
    ensures Meant(Clean(ps)) == Meant(ps) && forall p :: p in Clean(ps) ==> p.Tok? || p.Space?
    decreases |ps|
  {
    if ps != [] {
      var rest := ps[1..];
      assert ps[0] in ps && Calm(rest);
      CleanIsPlain(rest);
      if !ps[0].Trailing? {
        assert Clean(ps) == [ps[0]] + Clean(rest) && Clean(ps)[1..] == Clean(rest);
      }
    }
  }

  /** In the print of a value every comma is followed by what does not close. */
  ghost predicate CommasSeparate(ts: seq<Token>) {
    forall k :: 0 <= k < |ts| && ts[k] == Comma ==> k + 1 < |ts| && !Closes(ts[k + 1])
  }

  lemma Between(a: seq<Token>, b: seq<Token>)
    requires CommasSeparate(a) && CommasSeparate(b) && b != [] && !Closes(b[0]) && a != []
    ensures CommasSeparate(a + [Comma] + b)
  {
    var ts := a + [Comma] + b;
    forall k | 0 <= k < |ts| && ts[k] == Comma ensures k + 1 < |ts| && !Closes(ts[k + 1]) {
      if k < |a| {
        assert a[k] == Comma && ts[k + 1] == a[k + 1];
      } else if k > |a| {
        assert b[k - |a| - 1] == Comma && ts[k + 1] == b[k - |a|];
      }
    }
  }

  lemma Around(open: seq<Token>, a: seq<Token>, close: Token)
    requires CommasSeparate(a) && Comma !in open && close != Comma
    ensures CommasSeparate(open + a) && CommasSeparate(open + a + [close])
  {
    var ts := open + a + [close];
    forall k | 0 <= k < |ts| && ts[k] == Comma ensures k + 1 < |ts| && !Closes(ts[k + 1]) && k + 1 < |open + a| {
      assert k >= |open|;
      assert k < |open + a| && a[k - |open|] == Comma;
      assert ts[k + 1] == a[k - |open| + 1];
    }
    assert forall k :: 0 <= k < |open + a| ==> (open + a)[k] == ts[k];
  }

  lemma {:induction false} TokensSeparate(j: Json)
    ensures CommasSeparate(Tokens(j))
    decreases j
  {
    match j
    case Word(_) =>
    case Text(_) =>
    case List(items) =>
      ItemsSeparate(items);
      Around([OpenList], ItemTokens(items), CloseList);
    case Dict(fields) =>
      FieldsSeparate(fields);
      Around([OpenDict], FieldTokens(fields), CloseDict);
  }

  lemma {:induction false} ItemsSeparate(items: seq<Json>)
    ensures CommasSeparate(ItemTokens(items)) && (items != [] ==> ItemTokens(items) != [] && !Closes(ItemTokens(items)[0]))
    decreases items
  {
    if items != [] {
      TokensSeparate(items[0]);
      if |items| > 1 {
        ItemsSeparate(items[1..]);
        Between(Tokens(items[0]), ItemTokens(items[1..]));
      }
    }
  }

  lemma {:induction false} FieldsSeparate(fields: seq<Field>)
    ensures CommasSeparate(FieldTokens(fields)) && (fields != [] ==> FieldTokens(fields) != [] && !Closes(FieldTokens(fields)[0]))
    decreases fields
  {
    if fields != [] {
      var f := fields[0];
      TokensSeparate(f.value);
      var one := [TText(f.key), Colon] + Tokens(f.value);
      Around([TText(f.key), Colon], Tokens(f.value), CloseDict);
      if |fields| > 1 {
        FieldsSeparate(fields[1..]);
        Between(one, FieldTokens(fields[1..]));
      }
    }
  }

  /** Trailing commas trail. */
  ghost predicate TrailingPlaced(ps: seq<Piece>) {
    ps == [] || (TrailingPlaced(ps[1..]) && (ps[0].Trailing? ==> CloserNext(ps[1..])))
  }

  lemma {:induction false} NextIsMeant(ps: seq<Piece>)
    requires CloserNext(ps)
    ensures Meant(ps) != [] && Closes(Meant(ps)[0])
    decreases |ps|
  {
    if !ps[0].Tok? {
      NextIsMeant(ps[1..]);
    }
  }

  lemma {:induction false} SeparateIsPlaced(ps: seq<Piece>)
    requires CommasSeparate(Meant(ps)) && TrailingPlaced(ps)
    ensures CommasPlaced(ps)
    decreases |ps|
  {
    if ps != [] {
      var rest := ps[1..];
      var ts := Meant(ps);
      if ps[0].Tok? {
        assert ts[1..] == Meant(rest);
        forall k | 0 <= k < |Meant(rest)| && Meant(rest)[k] == Comma ensures k + 1 < |Meant(rest)| && !Closes(Meant(rest)[k + 1]) {
          assert ts[k + 1] == Comma && ts[k + 2] == Meant(rest)[k + 1];
        }
        assert ts[0] == ps[0].token && (Meant(rest) != [] ==> ts[1] == Meant(rest)[0]);
        if ps[0] == Tok(Comma) && CloserNext(rest) {
          NextIsMeant(rest);
          assert false;
        }
      }
      SeparateIsPlaced(rest);
    }
  }

  /** A JSON value written with blanks, comments anywhere between its tokens and a comma before any
      closer strips to the same value written with tokens and blanks alone. */
  lemma StripsToTheValue(j: Json, ps: seq<Piece>) returns (qs: seq<Piece>)
    requires Good(ps) && Meant(ps) == Tokens(j) && TrailingPlaced(ps)
    ensures Stripped(File(ps)) == File(qs) && Meant(qs) == Tokens(j) && forall p :: p in qs ==> p.Tok? || p.Space?
  {
    hide Tokens, WithoutTrailingCommas, WithoutComments;
    TokensSeparate(j);
    SeparateIsPlaced(ps);
    CommentsGo(ps);
    QuietIsCalm(ps);
    QuietKeepsCommas(ps);
    TrailingGo(Quiet(ps));
    CleanIsPlain(Quiet(ps));
    qs := Clean(Quiet(ps));
  }
}
