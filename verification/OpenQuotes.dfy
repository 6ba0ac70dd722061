/** What Forwarded lines can do to the lines behind them. All lines of the header are joined before quotes
    are looked at (internal/ws/client_ip.go), so a line that leaves a quote open takes the beginning of the
    next line into its quoted string. This module says exactly when that changes the chosen client. */
module OpenQuotes {
  import opened Wrappers
  import opened Forwarded
  import opened ClientIp

  // ---------------------------------------------------------------- splitting a text in two

  function Last<T>(x: seq<T>): T
    requires x != []
  {
    x[|x| - 1]
  }

  function Front<T>(x: seq<T>): seq<T>
    requires x != []
  {
    x[..|x| - 1]
  }

  /** The pieces of a text whose parts have pieces p and q: the last of p goes on in the first of q. */
  function Glue(p: seq<string>, q: seq<string>): (r: seq<string>)
    requires p != [] && q != []
  {
    Front(p) + [Last(p) + q[0]] + q[1..]
  }

  lemma {:induction false} PiecesConcat(a: string, c: string, sep: char, m: Mode)
    requires IsSeparator(sep)
    ensures Pieces(a + c, sep, m) == Glue(Pieces(a, sep, m), Pieces(c, sep, Scan(m, a)))
  {
    if a == "" {
      assert a + c == c;
      GlueEmpty(Pieces(c, sep, m));
    } else {
      assert (a + c)[1..] == a[1..] + c;
      PiecesConcat(a[1..], c, sep, Scan1(m, a[0]));
      GlueCons(a[0], Pieces(a[1..], sep, Scan1(m, a[0])), Pieces(c, sep, Scan(m, a)));
    }
  }

  lemma GlueEmpty(q: seq<string>)
    requires q != []
    ensures Glue([""], q) == q
  {
    assert "" + q[0] == q[0];
  }

  lemma GlueCons(c: char, p: seq<string>, q: seq<string>)
    requires p != [] && q != []
    ensures [""] + Glue(p, q) == Glue([""] + p, q)
    ensures [[c] + Glue(p, q)[0]] + Glue(p, q)[1..] == Glue([[c] + p[0]] + p[1..], q)
  {
    if |p| == 1 {
      assert [c] + (p[0] + q[0]) == [c] + p[0] + q[0];
    } else {
      assert Front([[c] + p[0]] + p[1..]) == [[c] + p[0]] + Front(p)[1..];
      assert Front([""] + p) == [""] + Front(p);
    }
  }

  /** A separator inside a string that was left open does not separate. */
  lemma PiecesOpen(a: string, b: string, sep: char)
    requires IsSeparator(sep) && Scan(Plain, a) != Plain
    ensures Pieces(a + "," + b, sep, Plain)
         == Front(Pieces(a, sep, Plain)) + [Last(Pieces(a, sep, Plain)) + "," + Pieces(b, sep, Quoted)[0]]
            + Pieces(b, sep, Quoted)[1..]
  {
    var p, q := Pieces(a, sep, Plain), Pieces(b, sep, Quoted);
    assert a + "," + b == a + ("," + b);
    PiecesConcat(a, "," + b, sep, Plain);
    assert ("," + b)[1..] == b;
    assert Pieces("," + b, sep, Scan(Plain, a)) == [[','] + q[0]] + q[1..];
    GlueComma(p, q);
  }

  lemma GlueComma(p: seq<string>, q: seq<string>)
    requires p != [] && q != []
    ensures Glue(p, [[','] + q[0]] + q[1..]) == Front(p) + [Last(p) + "," + q[0]] + q[1..]
  {
    assert Last(p) + ([','] + q[0]) == Last(p) + "," + q[0];
    assert ([[','] + q[0]] + q[1..])[1..] == q[1..];
  }

  lemma ScanOpen(a: string, b: string)
    requires Scan(Plain, a) != Plain
    ensures Scan(Plain, a + "," + b) == Scan(Quoted, b)
  {
    assert a + "," + b == a + ("," + b);
    ScanAppend(Plain, a, "," + b);
    assert ("," + b)[1..] == b;
  }

  /** The last piece is as open as the whole text. */
  lemma {:induction false} LastPieceScan(s: string, sep: char, m: Mode)
    requires IsSeparator(sep)
    ensures var p := Pieces(s, sep, m); Scan(if |p| == 1 then m else Plain, Last(p)) == Scan(m, s)
  {
    if s != "" {
      LastPieceScan(s[1..], sep, Scan1(m, s[0]));
      LastOfCons(s[0], Pieces(s[1..], sep, Scan1(m, s[0])), m);
    }
  }

  lemma LastOfCons(c: char, rest: seq<string>, m: Mode)
    requires rest != []
    ensures Last([""] + rest) == Last(rest)
    ensures Last([[c] + rest[0]] + rest[1..]) == if |rest| == 1 then [c] + rest[0] else Last(rest)
    ensures Scan(m, [c] + rest[0]) == Scan(Scan1(m, c), rest[0])
  {
    assert ([c] + rest[0])[1..] == rest[0];
  }

  // ---------------------------------------------------------------- trimming a text in two

  lemma {:induction false} TrimLeftAppend(x: string, y: string)
    requires TrimLeft(x) != ""
    ensures TrimLeft(x + y) == TrimLeft(x) + y
  {
    if IsSpace(x[0]) {
      TrimLeftAppend(x[1..], y);
      assert (x + y)[1..] == x[1..] + y;
    }
  }

  lemma {:induction false} TrimRightAppend(x: string, y: string)
    requires TrimRight(y) != ""
    ensures TrimRight(x + y) == x + TrimRight(y)
  {
    if IsSpace(y[|y| - 1]) {
      TrimRightAppend(x, y[..|y| - 1]);
      assert (x + y)[..|x + y| - 1] == x + y[..|y| - 1];
    }
  }

  /** Trimming on the right does not reopen or swallow a string that was closed. */
  lemma {:induction false} TrimRightClosed(s: string, m: Mode)
    requires Scan(m, s) == Plain
    ensures Scan(m, TrimRight(s)) == Plain
  {
    if s != "" && IsSpace(s[|s| - 1]) {
      var n := |s| - 1;
      assert s == s[..n] + [s[n]];
      ScanAppend(m, s[..n], [s[n]]);
      assert [s[n]][1..] == "";
      assert Scan(Scan(m, s[..n]), [s[n]]) == Scan1(Scan(m, s[..n]), s[n]);
      TrimRightClosed(s[..n], m);
    }
  }

  lemma TrimOpen(x: string, y: string)
    requires Scan(Plain, x) != Plain && Scan(Quoted, y) == Plain
    ensures Trim(x + "," + y) == TrimLeft(x) + "," + TrimRight(y)
    ensures Scan(Plain, TrimLeft(x)) == Scan(Plain, x) && Scan(Quoted, TrimRight(y)) == Plain
  {
    TrimLeftScan(x);
    TrimRightClosed(y, Quoted);
    assert x + "," + y == x + ("," + y);
    TrimLeftAppend(x, "," + y);
    TrimRightAppend(TrimLeft(x) + ",", y);
    assert TrimLeft(x) + ("," + y) == TrimLeft(x) + "," + y;
  }

  lemma TrimAllConcat(p: seq<string>, q: seq<string>)
    ensures TrimAll(p + q) == TrimAll(p) + TrimAll(q)
  {
  }

  // ---------------------------------------------------------------- parsing piece by piece

  /** A blank parameter has no '=' and fails by itself. */
  lemma {:induction false} BlankParamFails<A>(params: seq<string>, node: string -> Option<A>, found: Option<A>)
    requires "" in params
    ensures ReadParams(params, node, found) == None
  {
    if params[0] != "" && ReadParam(params[0], node, found).Some? {
      assert "" in params[1..];
      BlankParamFails(params[1..], node, ReadParam(params[0], node, found).value);
    }
  }

  lemma ElementOfPieces<A>(e: string, node: string -> Option<A>)
    ensures ParseElement(e, node)
         == if Balanced(e) then Found(ReadParams(TrimAll(Pieces(e, ';', Plain)), node, None)) else None
  {
    var params := TrimAll(Pieces(e, ';', Plain));
    if Balanced(e) && "" in params {
      BlankParamFails(params, node, None);
    }
  }

  lemma TextOfPieces<A>(s: string, node: string -> Option<A>)
    ensures ParseText(s, node)
         == if Balanced(s) then ParseEach(TrimAll(Pieces(s, ',', Plain)), ElementParser(node)) else None
  {
    var elements := TrimAll(Pieces(s, ',', Plain));
    if Balanced(s) && "" in elements {
      var i :| 0 <= i < |elements| && elements[i] == "";
      ElementOfPieces("", node);
      assert TrimAll(Pieces("", ';', Plain)) == [""];
      BlankParamFails([""], node, None);
      OneFailureFailsAll(elements, ElementParser(node), i);
    }
  }

  lemma {:induction false} ReadParamsAppend<A>(p: seq<string>, q: seq<string>,
                                         node: string -> Option<A>, found: Option<A>)
    ensures ReadParams(p + q, node, found)
         == match ReadParams(p, node, found) case None => None case Some(f) => ReadParams(q, node, f)
  {
    if p == [] {
      assert p + q == q;
    } else {
      assert (p + q)[1..] == p[1..] + q;
      if ReadParam(p[0], node, found).Some? {
        ReadParamsAppend(p[1..], q, node, ReadParam(p[0], node, found).value);
      }
    }
  }

  /** Parameters read after an earlier `for` or without one. */
  lemma {:induction false} ReadParamsFrom<A>(q: seq<string>, node: string -> Option<A>, found: Option<A>)
    ensures ReadParams(q, node, found) ==
            match ReadParams(q, node, None)
            case None => None
            case Some(None) => Some(found)
            case Some(Some(h)) => if found.Some? then None else Some(Some(h))
  {
    if q != [] && found.Some? && ReadParam(q[0], node, None).Some? {
      var f := ReadParam(q[0], node, None).value;
      ReadParamsFrom(q[1..], node, found);
      ReadParamsFrom(q[1..], node, f);
    }
  }

  // ---------------------------------------------------------------- lines behind an open quote

  function AsSeq<A>(hop: Option<A>): seq<A> {
    match hop case None => [] case Some(h) => [h]
  }

  /** The parameters after the one that the open string swallows. */
  function LaterParams(first: string): seq<string> {
    TrimAll(Pieces(TrimRight(first), ';', Quoted)[1..])
  }

  /** What is left of lines when a string was left open in front of them: nothing if they do not close it, or
      if some later parameter or element fails; otherwise the hops of their later elements, behind the hop
      of the element that begins in front of them when they name it. */
  function Swallowed<A>(b: string, node: string -> Option<A>): Option<seq<A>> {
    if Scan(Quoted, b) != Plain then None
    else
      var pieces := Pieces(b, ',', Quoted);
      match (ReadParams(LaterParams(pieces[0]), node, None), ParseEach(TrimAll(pieces[1..]), ElementParser(node)))
      case (Some(found), Some(later)) => Some(AsSeq(found) + later)
      case _ => None
  }

  /** The element that begins with x, which leaves a string open, and goes on with y, which closes it. */
  function OpenElement<A>(x: string, y: string, node: string -> Option<A>): Option<A> {
    var u := Pieces(TrimLeft(x), ';', Plain);
    var v := Pieces(TrimRight(y), ';', Quoted);
    Found(ReadParams(TrimAll(Front(u)) + [Trim(Last(u) + "," + v[0])] + LaterParams(y), node, None))
  }

  lemma OpenElementIsParsed<A>(x: string, y: string, node: string -> Option<A>)
    requires Scan(Plain, x) != Plain && Scan(Quoted, y) == Plain
    ensures ParseElement(Trim(x + "," + y), node) == OpenElement(x, y, node)
  {
    var l, r := TrimLeft(x), TrimRight(y);
    var u, v := Pieces(l, ';', Plain), Pieces(r, ';', Quoted);
    TrimOpen(x, y);
    ScanOpen(l, r);
    ElementOfPieces(l + "," + r, node);
    PiecesOpen(l, r, ';');
    TrimAllConcat(Front(u) + [Last(u) + "," + v[0]], v[1..]);
    TrimAllConcat(Front(u), [Last(u) + "," + v[0]]);
    assert TrimAll([Last(u) + "," + v[0]]) == [Trim(Last(u) + "," + v[0])];
  }

  /** The header a + "," + b when a leaves a string open and b closes it: the elements before the open one,
      the open one, the elements after it. */
  lemma OpenTextIsParsed<A>(a: string, b: string, node: string -> Option<A>)
    requires Scan(Plain, a) != Plain && Scan(Quoted, b) == Plain
    ensures var p, q := Pieces(a, ',', Plain), Pieces(b, ',', Quoted);
            ParseText(a + "," + b, node)
            == Concat(Concat(
                             ParseEach(TrimAll(Front(p)), ElementParser(node)),
                             OneHop(OpenElement(Last(p), q[0], node))),
                      ParseEach(TrimAll(q[1..]), ElementParser(node)))
  {
    var p, q := Pieces(a, ',', Plain), Pieces(b, ',', Quoted);
    var parse := ElementParser(node);
    var middle := Last(p) + "," + q[0];
    ScanOpen(a, b);
    TextOfPieces(a + "," + b, node);
    PiecesOpen(a, b, ',');
    TrimAllConcat(Front(p) + [middle], q[1..]);
    TrimAllConcat(Front(p), [middle]);
    assert TrimAll([middle]) == [Trim(middle)];
    ParseEachAppend(TrimAll(Front(p)) + [Trim(middle)], TrimAll(q[1..]), parse);
    ParseEachAppend(TrimAll(Front(p)), [Trim(middle)], parse);
    ParseOne(Trim(middle), parse);
    LastPieceScan(a, ',', Plain);
    PiecesScan(b, ',', Quoted, 0);
    OpenElementIsParsed(Last(p), q[0], node);
  }

  function OneHop<A>(hop: Option<A>): Option<seq<A>> {
    match hop case None => None case Some(h) => Some([h])
  }

  /** Whatever the open element begins with, a parsed header ends with what is left of the lines behind. */
  lemma OpenTextEndsWithSwallowed<A>(a: string, b: string, node: string -> Option<A>) returns (front: seq<A>)
    requires Scan(Plain, a) != Plain && ParseText(a + "," + b, node).Some?
    ensures Swallowed(b, node).Some? && ParseText(a + "," + b, node) == Some(front + Swallowed(b, node).value)
  {
    ParsedIsClosed(a, b, node);
    OpenTextIsParsed(a, b, node);
    var p, q := Pieces(a, ',', Plain), Pieces(b, ',', Quoted);
    var x, later := ParseEach(TrimAll(Front(p)), ElementParser(node)), ParseEach(TrimAll(q[1..]), ElementParser(node));
    var hop := OpenElement(Last(p), q[0], node);
    OpenElementHop(Last(p), q[0], node);
    front := EndsWith(x, hop, later, ReadParams(LaterParams(q[0]), node, None).value);
  }

  lemma ParsedIsClosed<A>(a: string, b: string, node: string -> Option<A>)
    requires Scan(Plain, a) != Plain && ParseText(a + "," + b, node).Some?
    ensures Scan(Quoted, b) == Plain
  {
    ScanOpen(a, b);
    TextOfPieces(a + "," + b, node);
  }

  lemma EndsWith<A>(x: Option<seq<A>>, hop: Option<A>, later: Option<seq<A>>, named: Option<A>) returns (front: seq<A>)
    requires Concat(Concat(x, OneHop(hop)), later).Some? && (named.Some? ==> named == hop)
    ensures Concat(Concat(x, OneHop(hop)), later) == Some(front + (AsSeq(named) + later.value))
  {
    if named.Some? {
      front := x.value;
      assert x.value + [hop.value] + later.value == x.value + ([hop.value] + later.value);
    } else {
      front := x.value + [hop.value];
      assert [] + later.value == later.value;
    }
  }

  lemma OpenElementHop<A>(x: string, y: string, node: string -> Option<A>)
    requires OpenElement(x, y, node).Some?
    ensures var later := ReadParams(LaterParams(y), node, None);
            later.Some? && (later.value.Some? ==> later.value == OpenElement(x, y, node))
  {
    var u := Pieces(TrimLeft(x), ';', Plain);
    var v := Pieces(TrimRight(y), ';', Quoted);
    var early := TrimAll(Front(u)) + [Trim(Last(u) + "," + v[0])];
    ReadParamsAppend(early, LaterParams(y), node, None);
    ReadParamsFrom(LaterParams(y), node, ReadParams(early, node, None).value);
  }

  // ---------------------------------------------------------------- lines that can be made to name anybody

  lemma {:induction false} TrimRightKeeps(s: string, k: nat)
    requires k < |s| && !IsSpace(s[k])
    ensures k < |TrimRight(s)| && TrimRight(s)[..k + 1] == s[..k + 1]
  {
    if IsSpace(s[|s| - 1]) {
      TrimRightKeeps(s[..|s| - 1], k);
      assert s[..|s| - 1][..k + 1] == s[..k + 1];
    }
  }

  /** A parameter that begins x=" is read past, whatever follows. */
  lemma ReadPastX<A>(rest: string, node: string -> Option<A>, found: Option<A>)
    ensures ReadParam(Trim("x=\"" + rest), node, found) == Some(found)
  {
    var s := "x=\"" + rest;
    assert TrimLeft(s) == s;
    TrimRightKeeps(s, 2);
    var t := TrimRight(s);
    assert t[..3] == "x=\"";
    assert t[0] == t[..3][0] == 'x' && t[1] == t[..3][1] == '=';
    assert t[1..][1..] == t[2..];
    assert CutAtEquals(t[1..]) == Some(("", t[2..]));
    assert CutAtEquals(t) == Some((['x'] + "", t[2..]));
    assert ['x'] + "" == "x" && Trim("x") == "x" && LowerAscii("x")[0] == 'x';
  }

  const OPEN_X := "x=\""

  lemma OpenXFacts(sep: char)
    requires IsSeparator(sep)
    ensures Scan(Plain, OPEN_X) == Quoted && Pieces(OPEN_X, sep, Plain) == [OPEN_X] && TrimLeft(OPEN_X) == OPEN_X
  {
    assert OPEN_X[1..] == "=\"" && OPEN_X[1..][1..] == "\"" && OPEN_X[1..][1..][1..] == "";
    PrependToPiece('"', "", sep, Plain);
    assert ['"'] + "" == "\"";
    PrependToPiece('=', "\"", sep, Plain);
    assert ['='] + "\"" == "=\"";
    PrependToPiece('x', "=\"", sep, Plain);
    assert ['x'] + "=\"" == OPEN_X;
  }

  /** The line that names `text` and then leaves a string open, in the same element or in the next. */
  function OpenLine(text: string, sep: char): string {
    RenderElement(text) + [sep] + OPEN_X
  }

  lemma OpenLineFacts(text: string, sep: char)
    requires IsSeparator(sep)
    ensures Scan(Plain, OpenLine(text, sep)) == Quoted
    ensures Pieces(OpenLine(text, sep), sep, Plain) == [RenderElement(text), OPEN_X]
  {
    ElementIsOnePiece(text, sep);
    OpenXFacts(sep);
    PiecesJoin(RenderElement(text), OPEN_X, sep, Plain);
    assert OpenLine(text, sep) == RenderElement(text) + ([sep] + OPEN_X);
    ScanAppend(Plain, RenderElement(text), [sep] + OPEN_X);
    assert ([sep] + OPEN_X)[1..] == OPEN_X;
  }

  /** Named in an element of its own, before the open one. */
  lemma NamedBefore<A>(text: string, b: string, node: string -> Option<A>)
    requires Printable(text) && node(text).Some? && Swallowed(b, node).Some?
    requires ReadParams(LaterParams(Pieces(b, ',', Quoted)[0]), node, None).value.Some?
    ensures ParseText(OpenLine(text, ',') + "," + b, node) == Some([node(text).value] + Swallowed(b, node).value)
  {
    var a, q := OpenLine(text, ','), Pieces(b, ',', Quoted);
    OpenLineFacts(text, ',');
    OpenTextIsParsed(a, b, node);
    var r := RenderElement(text);
    assert Front([r, OPEN_X]) == [r] && Last([r, OPEN_X]) == OPEN_X;
    OneNamed(text, node);
    XThen(q[0], node);
    var later := ParseEach(TrimAll(q[1..]), ElementParser(node));
    ThreeHops(node(text).value, ReadParams(LaterParams(q[0]), node, None).value.value, later.value);
  }

  lemma OneNamed<A>(text: string, node: string -> Option<A>)
    requires Printable(text) && node(text).Some?
    ensures ParseEach(TrimAll([RenderElement(text)]), ElementParser(node)) == Some([node(text).value])
  {
    var r := RenderElement(text);
    ElementIsTrim(text);
    assert TrimAll([r]) == [r];
    ParseOne(r, ElementParser(node));
    ElementRoundTrip(text, node);
  }

  lemma ThreeHops<A>(first: A, second: A, later: seq<A>)
    ensures Concat(Concat(Some([first]), OneHop(Some(second))), Some(later)) == Some([first] + ([second] + later))
  {
    assert [first] + [second] + later == [first] + ([second] + later);
  }

  lemma TwoHops<A>(first: A, later: seq<A>)
    ensures Concat(Concat(Some([]), OneHop(Some(first))), Some(later)) == Some([first] + ([] + later))
  {
    assert [] + [first] + later == [first] + ([] + later);
  }

  /** An open element that is x=" alone reads the later parameters only. */
  lemma XThen<A>(y: string, node: string -> Option<A>)
    ensures OpenElement(OPEN_X, y, node) == Found(ReadParams(LaterParams(y), node, None))
  {
    OpenXFacts(';');
    var v := Pieces(TrimRight(y), ';', Quoted);
    var swallowing := Trim(OPEN_X + "," + v[0]);
    assert OPEN_X + "," + v[0] == OPEN_X + ("," + v[0]);
    ReadPastX("," + v[0], node, None);
    OneParam(swallowing, node, None);
    assert Front([OPEN_X]) == [] && Last([OPEN_X]) == OPEN_X;
    assert TrimAll([]) + [swallowing] == [swallowing];
    ReadParamsAppend([swallowing], LaterParams(y), node, None);
  }

  /** Named in the open element itself. */
  lemma NamedWithin<A>(text: string, b: string, node: string -> Option<A>)
    requires Printable(text) && node(text).Some? && Swallowed(b, node).Some?
    requires ReadParams(LaterParams(Pieces(b, ',', Quoted)[0]), node, None).value.None?
    ensures ParseText(OpenLine(text, ';') + "," + b, node) == Some([node(text).value] + Swallowed(b, node).value)
  {
    var a, q := OpenLine(text, ';'), Pieces(b, ',', Quoted);
    OpenLineFacts(text, ';');
    OpenLineIsOneElement(text);
    OpenTextIsParsed(a, b, node);
    assert Front([a]) == [] && Last([a]) == a && TrimAll([]) == [];
    ForThenX(text, q[0], node);
    var later := ParseEach(TrimAll(q[1..]), ElementParser(node));
    TwoHops(node(text).value, later.value);
  }

  lemma OpenLineIsOneElement(text: string)
    ensures Pieces(OpenLine(text, ';'), ',', Plain) == [OpenLine(text, ';')]
  {
    var r := RenderElement(text);
    ElementIsOnePiece(text, ',');
    OpenXFacts(',');
    PrependToPiece(';', OPEN_X, ',', Plain);
    assert OpenLine(text, ';') == r + ([';'] + OPEN_X);
    PiecesConcat(r, [';'] + OPEN_X, ',', Plain);
  }

  lemma ForThenX<A>(text: string, y: string, node: string -> Option<A>)
    requires Printable(text) && node(text).Some?
    requires ReadParams(LaterParams(y), node, None) == Some(None)
    ensures OpenElement(OpenLine(text, ';'), y, node) == node(text)
  {
    var r, v := RenderElement(text), Pieces(TrimRight(y), ';', Quoted);
    OpenLineFacts(text, ';');
    assert TrimLeft(OpenLine(text, ';')) == OpenLine(text, ';');
    assert Front([r, OPEN_X]) == [r] && Last([r, OPEN_X]) == OPEN_X;
    EarlyParams(text, v[0], node);
    ReadParamsAppend(TrimAll([r]) + [Trim(OPEN_X + "," + v[0])], LaterParams(y), node, None);
    ReadParamsFrom(LaterParams(y), node, node(text));
  }

  lemma EarlyParams<A>(text: string, rest: string, node: string -> Option<A>)
    requires Printable(text) && node(text).Some?
    ensures ReadParams(TrimAll([RenderElement(text)]) + [Trim(OPEN_X + "," + rest)], node, None) == Some(node(text))
  {
    var r, swallowing := RenderElement(text), Trim(OPEN_X + "," + rest);
    ElementIsTrim(text);
    assert TrimAll([r]) == [r];
    ReadElement(text, node);
    assert OPEN_X + "," + rest == OPEN_X + ("," + rest);
    ReadPastX("," + rest, node, node(text));
    OneParam(swallowing, node, node(text));
    ReadParamsAppend([r], [swallowing], node, None);
  }

  lemma ReadElement<A>(text: string, node: string -> Option<A>)
    requires Printable(text) && node(text).Some?
    ensures ReadParams([RenderElement(text)], node, None) == Some(node(text))
  {
    ElementCut(text);
    ElementIsTrim(text);
    QuoteRoundTrip(text);
    ForIsFor();
    OneParam(RenderElement(text), node, None);
  }

  // ---------------------------------------------------------------- the client's identity

  /** With these lines in front, the client is the one that the proxy's lines name, or the header does not
      parse and the proxy itself is the client. */
  predicate Kept<A(==)>(earlier: seq<string>, appended: seq<string>, client: A, proxy: A,
                        trusted: A -> bool, node: string -> Option<A>)
  {
    var id := Identity(Some(proxy), Chain(earlier + appended, [], node), trusted);
    id == Some(client) || (id == Some(proxy) && ParseForwarded(earlier + appended, node) == None)
  }

  /** What a proxy can check about the lines it appends: if a string left open in front of them ends in them
      and the rest still parses, then the rest alone names their client. */
  predicate Guarded<A(==)>(appended: seq<string>, client: A, trusted: A -> bool, node: string -> Option<A>) {
    match Swallowed(Join(appended, ','), node)
    case None => true
    case Some(rest) => !AllTrusted(rest, trusted) && Choose(rest, trusted) == client
  }

  lemma BalancedLinesKeep<A>(earlier: seq<string>, appended: seq<string>, hops: seq<A>, proxy: A,
                             trusted: A -> bool, node: string -> Option<A>)
    requires earlier != [] && appended != [] && Balanced(Join(earlier, ','))
    requires ParseForwarded(appended, node) == Some(hops)
    requires trusted(proxy) && !AllTrusted(hops, trusted)
    ensures Kept(earlier, appended, Choose(hops, trusted), proxy, trusted, node)
  {
    ForwardedIsHomomorphic(earlier, appended, node);
    if ParseForwarded(earlier, node).Some? {
      PrefixKeepsChoice(ParseForwarded(earlier, node).value, hops, trusted);
    }
  }

  lemma OpenLinesKeep<A>(earlier: seq<string>, appended: seq<string>, hops: seq<A>, proxy: A,
                         trusted: A -> bool, node: string -> Option<A>)
    requires earlier != [] && appended != [] && !Balanced(Join(earlier, ','))
    requires trusted(proxy) && !AllTrusted(hops, trusted)
    requires Guarded(appended, Choose(hops, trusted), trusted, node)
    ensures Kept(earlier, appended, Choose(hops, trusted), proxy, trusted, node)
  {
    var a, b := Join(earlier, ','), Join(appended, ',');
    JoinAppend(earlier, appended, ',');
    if ParseText(a + "," + b, node).Some? {
      var front := OpenTextEndsWithSwallowed(a, b, node);
      PrefixKeepsChoice(front, Swallowed(b, node).value, trusted);
    }
  }

  /** Guarded lines name the client whatever lines came before them, well-formed or not. */
  lemma GuardedLinesKeep<A>(earlier: seq<string>, appended: seq<string>, hops: seq<A>, proxy: A,
                            trusted: A -> bool, node: string -> Option<A>)
    requires appended != [] && ParseForwarded(appended, node) == Some(hops)
    requires trusted(proxy) && !AllTrusted(hops, trusted)
    requires Guarded(appended, Choose(hops, trusted), trusted, node)
    ensures Kept(earlier, appended, Choose(hops, trusted), proxy, trusted, node)
  {
    if earlier == [] {
      assert earlier + appended == appended;
    } else if Balanced(Join(earlier, ',')) {
      BalancedLinesKeep(earlier, appended, hops, proxy, trusted, node);
    } else {
      OpenLinesKeep(earlier, appended, hops, proxy, trusted, node);
    }
  }

  /** The line to put in front of lines that are not guarded. */
  function FrontLine<A>(text: string, appended: seq<string>, node: string -> Option<A>): string {
    match ReadParams(LaterParams(Pieces(Join(appended, ','), ',', Quoted)[0]), node, None)
    case Some(None) => OpenLine(text, ';')
    case _ => OpenLine(text, ',')
  }

  lemma UnguardedLinesParse<A>(appended: seq<string>, text: string, node: string -> Option<A>)
    requires appended != [] && Printable(text) && node(text).Some?
    requires Swallowed(Join(appended, ','), node).Some?
    ensures ParseForwarded([FrontLine(text, appended, node)] + appended, node)
         == Some([node(text).value] + Swallowed(Join(appended, ','), node).value)
  {
    var b := Join(appended, ',');
    JoinAppend([FrontLine(text, appended, node)], appended, ',');
    if ReadParams(LaterParams(Pieces(b, ',', Quoted)[0]), node, None).value.None? {
      NamedWithin(text, b, node);
    } else {
      NamedBefore(text, b, node);
    }
  }

  lemma UnguardedLinesLose<A>(appended: seq<string>, hops: seq<A>, proxy: A, text: string,
                              trusted: A -> bool, node: string -> Option<A>)
    requires appended != [] && trusted(proxy) && !AllTrusted(hops, trusted)
    requires !Guarded(appended, Choose(hops, trusted), trusted, node)
    requires Printable(text) && node(text).Some? && !trusted(node(text).value)
             && node(text).value != Choose(hops, trusted)
    ensures !Kept([FrontLine(text, appended, node)], appended, Choose(hops, trusted), proxy, trusted, node)
  {
    var other, rest := node(text).value, Swallowed(Join(appended, ','), node).value;
    UnguardedLinesParse(appended, text, node);
    if AllTrusted(rest, trusted) {
      ChosenHop([other] + rest, trusted, 0);
    } else {
      PrefixKeepsChoice([other], rest, trusted);
    }
  }

  /** Exactly when client-supplied lines cannot choose the client. Let the lines a trusted proxy appended
      parse, with an untrusted hop, and let there be some other untrusted address. No lines in front change
      the client if and only if the appended lines are guarded. */
  lemma EarlierLinesCannotChooseTheClient<A>(appended: seq<string>, hops: seq<A>, proxy: A, text: string,
                                             trusted: A -> bool, node: string -> Option<A>)
    requires appended != [] && ParseForwarded(appended, node) == Some(hops)
    requires trusted(proxy) && !AllTrusted(hops, trusted)
    requires Printable(text) && node(text).Some? && !trusted(node(text).value)
             && node(text).value != Choose(hops, trusted)
    ensures (forall earlier :: Kept(earlier, appended, Choose(hops, trusted), proxy, trusted, node))
       <==> Guarded(appended, Choose(hops, trusted), trusted, node)
  {
    var client := Choose(hops, trusted);
    if Guarded(appended, client, trusted, node) {
      forall earlier ensures Kept(earlier, appended, client, proxy, trusted, node) {
        GuardedLinesKeep(earlier, appended, hops, proxy, trusted, node);
      }
    } else {
      UnguardedLinesLose(appended, hops, proxy, text, trusted, node);
    }
  }

  // ---------------------------------------------------------------- two ways to be guarded

  predicate NoBackslash(s: string) {
    forall i :: 0 <= i < |s| ==> s[i] != '\\'
  }

  /** Without backslashes quotes only toggle, so a text that closes its own quotes leaves an open quote
      open. */
  lemma {:induction false} BalancedKeepsQuote(s: string, m: Mode)
    requires NoBackslash(s) && m != Escaped
    ensures Scan(m, s) != Escaped
    ensures Scan(m, s) == m <==> Scan(Plain, s) == Plain
    decreases |s|
  {
    if s != "" {
      assert forall i :: 0 <= i < |s| - 1 ==> s[1..][i] == s[i + 1];
      BalancedKeepsQuote(s[1..], Scan1(m, s[0]));
      BalancedKeepsQuote(s[1..], Scan1(Plain, s[0]));
    }
  }

  /** Lines that do not close a string left open in front of them are guarded, and lines without a backslash
      are of that kind. */
  lemma SimpleLinesAreGuarded<A>(appended: seq<string>, hops: seq<A>, trusted: A -> bool, node: string -> Option<A>)
    requires appended != [] && ParseForwarded(appended, node) == Some(hops) && !AllTrusted(hops, trusted)
    ensures NoBackslash(Join(appended, ',')) ==> Scan(Quoted, Join(appended, ',')) == Quoted
    ensures Scan(Quoted, Join(appended, ',')) != Plain ==> Guarded(appended, Choose(hops, trusted), trusted, node)
  {
    if NoBackslash(Join(appended, ',')) {
      BalancedKeepsQuote(Join(appended, ','), Quoted);
    }
  }

  // ---------------------------------------------------------------- lines that are not guarded

  /** The text is one piece, scanned from one mode to another. */
  predicate Whole(s: string, sep: char, from: Mode, to: Mode) {
    Pieces(s, sep, from) == [s] && Scan(from, s) == to
  }

  lemma WholeConcat(a: string, c: string, sep: char, m: Mode, middle: Mode, to: Mode)
    requires IsSeparator(sep) && Whole(a, sep, m, middle) && Whole(c, sep, middle, to)
    ensures Whole(a + c, sep, m, to)
  {
    PiecesConcat(a, c, sep, m);
    ScanAppend(m, a, c);
  }

  lemma WholeChar(c: char, sep: char, m: Mode)
    requires !(m == Plain && c == sep)
    ensures Whole([c], sep, m, Scan1(m, c))
  {
    assert [c][1..] == "";
    assert [c] + "" == [c];
  }

  /** Inside quotes nothing but quotes and backslashes matters. */
  lemma {:induction false} WholeQuoted(s: string, sep: char)
    requires '"' !in s && '\\' !in s
    ensures Whole(s, sep, Quoted, Quoted)
  {
    if s != "" {
      WholeQuoted(s[1..], sep);
      assert [s[0]] + s[1..] == s;
    }
  }

  /** A text that begins outside quotes, with all its quotes closed, or behind an open one. */
  ghost predicate Flips(s: string, to: Mode) {
    forall sep :: IsSeparator(sep) ==> Whole(s, sep, Plain, Plain) && Whole(s, sep, Quoted, to)
  }

  /** Text without quotes, backslashes and separators, as every address and port is. */
  predicate Bare(s: string) {
    forall c :: c in s ==> c != '"' && c != '\\' && !IsSeparator(c)
  }

  lemma {:induction false} WholeBare(s: string, sep: char)
    requires IsSeparator(sep) && Bare(s)
    ensures Whole(s, sep, Plain, Plain)
  {
    if s != "" {
      assert s[0] in s && forall c :: c in s[1..] ==> c in s;
      WholeBare(s[1..], sep);
      assert [s[0]] + s[1..] == s;
    }
  }

  lemma {:induction false} EscapeBare(s: string)
    requires Bare(s)
    ensures EscapeBody(s) == s
  {
    if s != "" {
      assert s[0] in s && forall c :: c in s[1..] ==> c in s;
      EscapeBare(s[1..]);
    }
  }

  /** Bare text in quotes: behind an open quote, the text is outside and a new string is open after it. */
  lemma NamedFlips(text: string, r: string)
    requires Bare(text) && r == RenderElement(text)
    ensures Flips(r, Quoted)
  {
    var q := ['"'];
    EscapeBare(text);
    assert r == "for=" + q + text + q;
    forall sep | IsSeparator(sep) ensures Whole(r, sep, Plain, Plain) && Whole(r, sep, Quoted, Quoted) {
      ElementIsOnePiece(text, sep);
      WholeQuoted("for=", sep);
      WholeChar('"', sep, Quoted);
      WholeBare(text, sep);
      WholeChar('"', sep, Plain);
      WholeConcat("for=", q, sep, Quoted, Quoted, Plain);
      WholeConcat("for=" + q, text, sep, Quoted, Plain, Plain);
      WholeConcat("for=" + q + text, q, sep, Quoted, Plain, Quoted);
    }
  }

  /** One escaped quote in quotes: behind an open quote, the backslash is outside and all quotes are closed. */
  lemma EscapedQuoteFlips(q: string)
    requires q == ['"', '\\', '"', '"']
    ensures Flips(q, Plain)
  {
    forall sep | IsSeparator(sep) ensures Whole(q, sep, Plain, Plain) && Whole(q, sep, Quoted, Plain) {
      FourChars(q, sep, Plain);
      FourChars(q, sep, Quoted);
    }
  }

  lemma FourChars(q: string, sep: char, m: Mode)
    requires IsSeparator(sep) && q == ['"', '\\', '"', '"'] && m != Escaped
    ensures Whole(q, sep, m, Plain)
  {
    var m1 := Scan1(m, '"');
    var m2 := Scan1(m1, '\\');
    var m3 := Scan1(m2, '"');
    WholeChar('"', sep, m);
    WholeChar('\\', sep, m1);
    WholeChar('"', sep, m2);
    WholeChar('"', sep, m3);
    WholeConcat(['"'], ['\\'], sep, m, m1, m2);
    WholeConcat(['"'] + ['\\'], ['"'], sep, m, m2, m3);
    WholeConcat(['"'] + ['\\'] + ['"'], ['"'], sep, m, m3, Scan1(m3, '"'));
    assert q == ['"'] + ['\\'] + ['"'] + ['"'];
  }

  /** The parts of the line: the client's element, and a parameter h with a quoted value. */
  ghost predicate Line(line: string, r: string, q: string) {
    && line == r + (";h=" + q) && line == r + [';'] + ("h=" + q)
    && Flips(r, Quoted) && Flips(q, Plain) && r != "" && q != "" && !IsSpace(r[0]) && !IsSpace(q[|q| - 1])
  }

  /** Read behind an open quote, the line is one string with nothing after it that could separate. */
  lemma LineBehindQuote(line: string, r: string, q: string, sep: char)
    requires IsSeparator(sep) && Line(line, r, q)
    ensures Whole(line, sep, Quoted, Plain)
  {
    WholeQuoted(";h=", sep);
    WholeConcat(";h=", q, sep, Quoted, Quoted, Plain);
    WholeConcat(r, ";h=" + q, sep, Quoted, Quoted, Plain);
  }

  lemma LineIsSwallowed<A>(line: string, r: string, q: string, node: string -> Option<A>)
    requires Line(line, r, q)
    ensures Swallowed(line, node) == Some([])
    ensures ReadParams(LaterParams(Pieces(line, ',', Quoted)[0]), node, None) == Some(None)
  {
    LineBehindQuote(line, r, q, ',');
    LineBehindQuote(line, r, q, ';');
    assert TrimRight(line) == line;
    assert [line][1..] == [] && TrimAll([]) == [];
    assert LaterParams(line) == [];
    assert AsSeq<A>(None) + [] == [];
  }

  lemma HParam<A>(q: string, node: string -> Option<A>, found: Option<A>)
    requires q != "" && !IsSpace(q[|q| - 1])
    ensures Trim("h=" + q) == "h=" + q && ReadParam("h=" + q, node, found) == Some(found)
  {
    assert "h=" + q == ['h'] + (['='] + q);
    assert (['='] + q)[1..] == q;
    assert ['h'] + "" == "h";
    PrependToKey('h', ['='] + q, "", q);
    assert Trim("h") == "h" && LowerAscii("h")[0] == 'h';
  }

  lemma LineIsWhole(line: string, r: string, q: string)
    requires Line(line, r, q)
    ensures Whole(line, ',', Plain, Plain)
  {
    var h := "h=" + q;
    assert Whole(r, ',', Plain, Plain);
    WholeH(q, ',');
    WholeChar(';', ',', Plain);
    WholeConcat([';'], h, ',', Plain, Plain, Plain);
    WholeConcat(r, [';'] + h, ',', Plain, Plain, Plain);
    assert line == r + ([';'] + h);
  }

  lemma LineHasTwoParams(line: string, r: string, q: string)
    requires Line(line, r, q)
    ensures Pieces(line, ';', Plain) == [r] + ["h=" + q]
  {
    assert Whole(r, ';', Plain, Plain);
    WholeH(q, ';');
    PiecesJoin(r, "h=" + q, ';', Plain);
  }

  lemma LineElement<A>(line: string, text: string, q: string, node: string -> Option<A>)
    requires Line(line, RenderElement(text), q) && Printable(text) && node(text).Some?
    ensures ParseElement(line, node) == node(text)
  {
    LineIsWhole(line, RenderElement(text), q);
    LineHasTwoParams(line, RenderElement(text), q);
    ElementOfPieces(line, node);
    TwoParams(text, q, node);
  }

  lemma WholeH(q: string, sep: char)
    requires IsSeparator(sep) && Flips(q, Plain)
    ensures Whole("h=" + q, sep, Plain, Plain)
  {
    WholeChar('h', sep, Plain);
    WholeChar('=', sep, Plain);
    WholeConcat(['h'], ['='], sep, Plain, Plain, Plain);
    WholeConcat(['h'] + ['='], q, sep, Plain, Plain, Plain);
    assert ['h'] + ['='] + q == "h=" + q;
  }

  lemma TwoParams<A>(text: string, q: string, node: string -> Option<A>)
    requires Printable(text) && node(text).Some? && q != "" && !IsSpace(q[|q| - 1])
    ensures ReadParams(TrimAll([RenderElement(text)] + ["h=" + q]), node, None) == Some(node(text))
  {
    var r, h := RenderElement(text), "h=" + q;
    ElementIsTrim(text);
    HParam(q, node, node(text));
    assert TrimAll([r] + [h]) == [r] + [h];
    ReadParamsAppend([r], [h], node, None);
    ReadElement(text, node);
    OneParam(h, node, node(text));
  }

  /** By itself the line parses, to its client. */
  lemma LineAlone<A>(line: string, text: string, q: string, node: string -> Option<A>)
    requires Line(line, RenderElement(text), q) && Printable(text) && node(text).Some?
    ensures ParseForwarded([line], node) == Some([node(text).value])
  {
    LineElement(line, text, q, node);
    LineIsWhole(line, RenderElement(text), q);
    TextOfPieces(line, node);
    assert TrimLeft(line) == line && TrimRight(line) == line;
    assert TrimAll([line]) == [line];
    ParseOne(line, ElementParser(node));
    assert Join([line], ',') == line;
  }

  /** Inputs on which a line in front chooses the client: by themselves the proxy's lines name `client`, and
      behind a line that names `other` and leaves a quote open they name `other`. */
  lemma FrontLineChooses<A>(line: string, text: string, q: string, front: string, proxy: A,
                            trusted: A -> bool, node: string -> Option<A>)
    requires Line(line, RenderElement(text), q) && Printable(text) && Printable(front)
    requires node(text).Some? && node(front).Some? && node(text) != node(front)
    requires trusted(proxy) && !trusted(node(text).value) && !trusted(node(front).value)
    ensures Identity(Some(proxy), Chain([line], [], node), trusted) == node(text)
    ensures Identity(Some(proxy), Chain([OpenLine(front, ';'), line], [], node), trusted) == node(front)
  {
    LineAlone(line, text, q, node);
    OnlyHop([line], node(text).value, proxy, trusted, node);
    LineBehind(line, RenderElement(text), q, front, node);
    OnlyHop([OpenLine(front, ';'), line], node(front).value, proxy, trusted, node);
  }

  lemma OnlyHop<A>(values: seq<string>, hop: A, proxy: A, trusted: A -> bool, node: string -> Option<A>)
    requires values != [] && ParseForwarded(values, node) == Some([hop]) && trusted(proxy)
    ensures Identity(Some(proxy), Chain(values, [], node), trusted) == Some(hop)
  {
  }

  lemma LineBehind<A>(line: string, r: string, q: string, front: string, node: string -> Option<A>)
    requires Line(line, r, q) && Printable(front) && node(front).Some?
    ensures ParseForwarded([OpenLine(front, ';'), line], node) == Some([node(front).value])
  {
    LineIsSwallowed(line, r, q, node);
    assert Join([line], ',') == line;
    UnguardedLinesParse([line], front, node);
    assert [OpenLine(front, ';')] + [line] == [OpenLine(front, ';'), line];
    assert [node(front).value] + [] == [node(front).value];
  }

  /** The line of a proxy, and the client's line in front of it, for any bare texts. */
  predicate Spelled(line: string, text: string, first: string, front: string) {
    line == "for=\"" + text + "\";h=\"\\\"\"" && first == "for=\"" + front + "\";x=\""
  }

  lemma SpelledParts(line: string, text: string, first: string, front: string, q: string)
    requires Spelled(line, text, first, front) && Bare(text) && Bare(front) && q == ['"', '\\', '"', '"']
    ensures var r := RenderElement(text);
            line == r + (";h=" + q) && line == r + [';'] + ("h=" + q) && first == OpenLine(front, ';')
  {
    RenderBare(text);
    RenderBare(front);
    LineParts("for=\"" + text, q);
    FirstParts("for=\"" + front);
  }

  lemma RenderBare(text: string)
    requires Bare(text)
    ensures RenderElement(text) == "for=\"" + text + "\""
  {
    EscapeBare(text);
  }

  lemma LineParts(a: string, q: string)
    requires q == ['"', '\\', '"', '"']
    ensures a + "\";h=\"\\\"\"" == a + "\"" + (";h=" + q) == a + "\"" + [';'] + ("h=" + q)
  {
    assert "\";h=\"\\\"\"" == "\"" + (";h=" + q);
    assert ";h=" + q == [';'] + ("h=" + q);
  }

  lemma FirstParts(a: string)
    ensures a + "\";x=\"" == a + "\"" + [';'] + OPEN_X
  {
    assert "\";x=\"" == "\"" + ([';'] + OPEN_X);
  }

  lemma SpelledChooses<A>(line: string, text: string, first: string, front: string, proxy: A,
                          trusted: A -> bool, node: string -> Option<A>)
    requires Spelled(line, text, first, front) && Bare(text) && Bare(front) && Printable(text) && Printable(front)
    requires node(text).Some? && node(front).Some? && node(text) != node(front)
    requires trusted(proxy) && !trusted(node(text).value) && !trusted(node(front).value)
    ensures Identity(Some(proxy), Chain([line], [], node), trusted) == node(text)
    ensures Identity(Some(proxy), Chain([first, line], [], node), trusted) == node(front)
  {
    var q := ['"', '\\', '"', '"'];
    NamedFlips(text, RenderElement(text));
    EscapedQuoteFlips(q);
    SpelledParts(line, text, first, front, q);
    FrontLineChooses(line, text, q, front, proxy, trusted, node);
  }

  /** Written out, with two addresses of the blocks reserved for documentation: the proxy's line alone names
      `client`, and behind the other line the header names `other`. */
  lemma EarlierLineChoosesTheClient<A>(line: string, first: string, client: A, other: A, proxy: A,
                                       trusted: A -> bool, node: string -> Option<A>)
    requires line == "for=\"192.0.2.1\";h=\"\\\"\"" && first == "for=\"198.51.100.6\";x=\""
    requires node("192.0.2.1") == Some(client) && node("198.51.100.6") == Some(other) && client != other
    requires trusted(proxy) && !trusted(client) && !trusted(other)
    ensures Identity(Some(proxy), Chain([line], [], node), trusted) == Some(client)
    ensures Identity(Some(proxy), Chain([first, line], [], node), trusted) == Some(other)
  {
    SpelledChooses(line, "192.0.2.1", first, "198.51.100.6", proxy, trusted, node);
  }
}
