/** internal/ws/client_ip.go: the Forwarded header (RFC 7239, sections 4 and 6) with quoted strings
    (RFC 7230, section 3.2.6), and the walk that picks the client's address out of the hop chain.

    Text is a sequence of bytes written as characters; trimming is of ASCII white space. Parsing a
    node into an address is a parameter. */
module Forwarded {
  import opened Wrappers

  // ---------------------------------------------------------------- text

  predicate IsSpace(c: char) {
    c == ' ' || ('\t' <= c <= '\r')
  }

  function TrimLeft(s: string): string {
    if s != "" && IsSpace(s[0]) then TrimLeft(s[1..]) else s
  }

  function TrimRight(s: string): string {
    if s != "" && IsSpace(s[|s| - 1]) then TrimRight(s[..|s| - 1]) else s
  }

  function Trim(s: string): string {
    TrimRight(TrimLeft(s))
  }

  /** strings.Join. */
  function Join(values: seq<string>, sep: char): string {
    if values == [] then ""
    else if |values| == 1 then values[0]
    else values[0] + [sep] + Join(values[1..], sep)
  }

  lemma {:induction false} JoinAppend(a: seq<string>, b: seq<string>, sep: char)
    requires a != [] && b != []
    ensures Join(a + b, sep) == Join(a, sep) + [sep] + Join(b, sep)
  {
    if |a| == 1 {
      assert (a + b)[1..] == b;
    } else {
      JoinAppend(a[1..], b, sep);
      assert (a + b)[1..] == a[1..] + b;
      assert (a + b)[0] == a[0];
    }
  }

  // ---------------------------------------------------------------- scanning quotes

  datatype Mode = Plain | Quoted | Escaped

  /** A backslash escapes only inside quotes. */
  function Scan1(m: Mode, c: char): Mode {
    match m
    case Escaped => Quoted
    case Quoted => if c == '\\' then Escaped else if c == '"' then Plain else Quoted
    case Plain => if c == '"' then Quoted else Plain
  }

  function Scan(m: Mode, s: string): Mode
    decreases |s|
  {
    if s == "" then m else Scan(Scan1(m, s[0]), s[1..])
  }

  predicate Balanced(s: string) {
    Scan(Plain, s) == Plain
  }

  lemma {:induction false} ScanAppend(m: Mode, a: string, b: string)
    ensures Scan(m, a + b) == Scan(Scan(m, a), b)
    decreases |a|
  {
    if a == "" {
      assert a + b == b;
    } else {
      ScanAppend(Scan1(m, a[0]), a[1..], b);
      assert (a + b)[1..] == a[1..] + b;
    }
  }

  // ---------------------------------------------------------------- splitting outside quotes

  /** The text between separators that are outside quotes, untrimmed. */
  function Pieces(s: string, sep: char, m: Mode): (ps: seq<string>)
    ensures |ps| > 0
  {
    if s == "" then [""]
    else if m == Plain && s[0] == sep then [""] + Pieces(s[1..], sep, Plain)
    else
      var rest := Pieces(s[1..], sep, Scan1(m, s[0]));
      [[s[0]] + rest[0]] + rest[1..]
  }

  function TrimAll(ps: seq<string>): (ts: seq<string>)
    ensures |ts| == |ps|
    ensures forall i :: 0 <= i < |ps| ==> ts[i] == Trim(ps[i])
  {
    seq(|ps|, i requires 0 <= i < |ps| => Trim(ps[i]))
  }

  predicate IsSeparator(c: char) {
    c == ',' || c == ';'
  }

  /** splitOutsideQuotes: the trimmed pieces, unless quotes are left open or a piece is blank. */
  function Split(s: string, sep: char): Option<seq<string>> {
    if !Balanced(s) then None
    else
      var parts := TrimAll(Pieces(s, sep, Plain));
      if "" in parts then None else Some(parts)
  }

  lemma {:induction false} PiecesJoin(a: string, b: string, sep: char, m: Mode)
    requires IsSeparator(sep) && Scan(m, a) == Plain
    ensures Pieces(a + [sep] + b, sep, m) == Pieces(a, sep, m) + Pieces(b, sep, Plain)
  {
    var s := a + [sep] + b;
    if a == "" {
      assert s[1..] == b;
    } else {
      var m' := if m == Plain && a[0] == sep then Plain else Scan1(m, a[0]);
      assert s[1..] == a[1..] + [sep] + b;
      PiecesJoin(a[1..], b, sep, m');
      ConsPieces(Pieces(a[1..], sep, m'), Pieces(b, sep, Plain), a[0]);
    }
  }

  lemma ConsPieces(p: seq<string>, q: seq<string>, c: char)
    requires p != []
    ensures [""] + (p + q) == ([""] + p) + q
    ensures [[c] + (p + q)[0]] + (p + q)[1..] == ([[c] + p[0]] + p[1..]) + q
  {
    assert (p + q)[1..] == p[1..] + q;
  }

  /** Two texts with closed quotes, joined by the separator, split into the pieces of both. */
  lemma SplitJoin(a: string, b: string, sep: char)
    requires IsSeparator(sep) && Balanced(a)
    ensures Split(a + [sep] + b, sep) ==
            if Split(a, sep).Some? && Split(b, sep).Some? then Some(Split(a, sep).value + Split(b, sep).value) else None
  {
    ScanAppend(Plain, a, [sep] + b);
    assert a + [sep] + b == a + ([sep] + b);
    assert ([sep] + b)[1..] == b;
    assert Balanced(a + [sep] + b) == Balanced(b);
    PiecesJoin(a, b, sep, Plain);
    var p, q := Pieces(a, sep, Plain), Pieces(b, sep, Plain);
    assert TrimAll(p + q) == TrimAll(p) + TrimAll(q);
  }

  // ---------------------------------------------------------------- pieces are balanced

  lemma {:induction false} PiecesScan(s: string, sep: char, m: Mode, i: nat)
    requires IsSeparator(sep) && Scan(m, s) == Plain && i < |Pieces(s, sep, m)|
    ensures Scan(if i == 0 then m else Plain, Pieces(s, sep, m)[i]) == Plain
  {
    if s != "" {
      if m == Plain && s[0] == sep {
        if i > 0 {
          PiecesScan(s[1..], sep, Plain, i - 1);
        }
      } else {
        PiecesScan(s[1..], sep, Scan1(m, s[0]), i);
        if i == 0 {
          assert Pieces(s, sep, m)[0][1..] == Pieces(s[1..], sep, Scan1(m, s[0]))[0];
        }
      }
    }
  }

  lemma {:induction false} TrimLeftScan(s: string)
    ensures Scan(Plain, TrimLeft(s)) == Scan(Plain, s)
  {
    if s != "" && IsSpace(s[0]) {
      TrimLeftScan(s[1..]);
    }
  }

  lemma {:induction false} TrimRightScan(s: string)
    requires Scan(Plain, s) == Plain
    ensures Scan(Plain, TrimRight(s)) == Plain
  {
    if s != "" && IsSpace(s[|s| - 1]) {
      var n := |s| - 1;
      assert s == s[..n] + [s[n]];
      ScanAppend(Plain, s[..n], [s[n]]);
      assert [s[n]][1..] == "";
      assert Scan(Scan(Plain, s[..n]), [s[n]]) == Scan1(Scan(Plain, s[..n]), s[n]);
      TrimRightScan(s[..n]);
    }
  }

  /** Every piece of a successful split has its quotes closed, so splitting it again can fail on blank
      pieces only, never on quotes. */
  lemma PiecesAreBalanced(s: string, sep: char, i: nat)
    requires IsSeparator(sep) && Split(s, sep).Some? && i < |Split(s, sep).value|
    ensures Balanced(Split(s, sep).value[i]) && Split(s, sep).value[i] != ""
  {
    PiecesScan(s, sep, Plain, i);
    var piece := Pieces(s, sep, Plain)[i];
    TrimLeftScan(piece);
    TrimRightScan(TrimLeft(piece));
    assert Split(s, sep).value[i] in Split(s, sep).value;
  }

  lemma InnerSplitFailsOnBlanksOnly(s: string, i: nat)
    requires Split(s, ',').Some? && i < |Split(s, ',').value|
    ensures var element := Split(s, ',').value[i];
            Split(element, ';') == None <==>
              exists j :: 0 <= j < |Pieces(element, ';', Plain)| && Trim(Pieces(element, ';', Plain)[j]) == ""
  {
    PiecesAreBalanced(s, ',', i);
    var element := Split(s, ',').value[i];
    var parts := TrimAll(Pieces(element, ';', Plain));
    if j :| 0 <= j < |parts| && parts[j] == "" {
      assert Trim(Pieces(element, ';', Plain)[j]) == "";
    }
    if j :| 0 <= j < |Pieces(element, ';', Plain)| && Trim(Pieces(element, ';', Plain)[j]) == "" {
      assert parts[j] == "";
    }
  }

  // ---------------------------------------------------------------- quoted strings

  predicate IsControl(c: char) {
    c < ' ' || c == 0x7f as char
  }

  /** The text between the quotes, with escapes undone; a bare quote or a control character fails. */
  function UnquoteBody(s: string): Option<string> {
    if s == "" then Some("")
    else if s[0] == '\\' then
      if |s| == 1 || IsControl(s[1]) then None
      else match UnquoteBody(s[2..]) case None => None case Some(rest) => Some([s[1]] + rest)
    else if s[0] == '"' || IsControl(s[0]) then None
    else match UnquoteBody(s[1..]) case None => None case Some(rest) => Some([s[0]] + rest)
  }

  function Unquote(value: string): Option<string> {
    if value == "" || value[0] != '"' then
      if '"' in value || '\\' in value then None else Some(value)
    else if |value| < 2 || value[|value| - 1] != '"' then None
    else UnquoteBody(value[1..|value| - 1])
  }

  function EscapeBody(s: string): string {
    if s == "" then ""
    else (if s[0] == '"' || s[0] == '\\' then ['\\', s[0]] else [s[0]]) + EscapeBody(s[1..])
  }

  /** How a sender quotes a value. */
  function Quote(s: string): string {
    "\"" + EscapeBody(s) + "\""
  }

  predicate Printable(s: string) {
    forall i :: 0 <= i < |s| ==> !IsControl(s[i])
  }

  lemma PrintableCons(s: string)
    requires s != ""
    ensures Printable(s) <==> !IsControl(s[0]) && Printable(s[1..])
  {
    if !IsControl(s[0]) && Printable(s[1..]) {
      forall i | 0 <= i < |s| ensures !IsControl(s[i]) {
        assert i > 0 ==> s[i] == s[1..][i - 1];
      }
    }
  }

  lemma {:induction false} EscapeRoundTrip(s: string)
    ensures UnquoteBody(EscapeBody(s)) == if Printable(s) then Some(s) else None
  {
    if s != "" {
      EscapeRoundTrip(s[1..]);
      PrintableCons(s);
      var e, rest := EscapeBody(s), EscapeBody(s[1..]);
      assert [s[0]] + s[1..] == s;
      if s[0] == '"' || s[0] == '\\' {
        assert e == ['\\', s[0]] + rest;
        assert e[2..] == rest;
      } else {
        assert e == [s[0]] + rest;
        assert e[1..] == rest;
      }
    }
  }

  /** Quoting then unquoting is the identity exactly on text without control characters. */
  lemma QuoteRoundTrip(s: string)
    ensures Unquote(Quote(s)) == if Printable(s) then Some(s) else None
  {
    var q := Quote(s);
    assert q[1..|q| - 1] == EscapeBody(s);
    EscapeRoundTrip(s);
  }

  // ---------------------------------------------------------------- the header

  /** strings.Cut at the first '='. */
  function CutAtEquals(s: string): Option<(string, string)> {
    if s == "" then None
    else if s[0] == '=' then Some(("", s[1..]))
    else match CutAtEquals(s[1..]) case None => None case Some((k, v)) => Some(([s[0]] + k, v))
  }

  function LowerAscii(s: string): string {
    if s == "" then ""
    else [if 'A' <= s[0] <= 'Z' then s[0] - 'A' + 'a' else s[0]] + LowerAscii(s[1..])
  }

  /** One parameter of an element; `found` is what the parameters before it gave. Only a `for` is looked at
      further: it must be the first, unquote, and be a node. */
  function ReadParam<A>(param: string, node: string -> Option<A>, found: Option<A>): Option<Option<A>> {
    match CutAtEquals(param)
    case None => None
    case Some((key, value)) =>
      if Trim(key) == "" then None
      else if LowerAscii(Trim(key)) != "for" then Some(found)
      else if found.Some? then None
      else match Unquote(Trim(value))
        case None => None
        case Some(text) => match node(text) case None => None case Some(addr) => Some(Some(addr))
  }

  function ReadParams<A>(params: seq<string>, node: string -> Option<A>, found: Option<A>): Option<Option<A>> {
    if params == [] then Some(found)
    else match ReadParam(params[0], node, found)
      case None => None
      case Some(f) => ReadParams(params[1..], node, f)
  }

  /** An element without a `for` fails. */
  function Found<A>(r: Option<Option<A>>): Option<A> {
    match r case None => None case Some(found) => found
  }

  function ParseElement<A>(element: string, node: string -> Option<A>): Option<A> {
    match Split(element, ';')
    case None => None
    case Some(params) => Found(ReadParams(params, node, None))
  }

  /** Each item parsed in order; one failure fails all. */
  function ParseEach<A>(items: seq<string>, parse: string -> Option<A>): Option<seq<A>> {
    if items == [] then Some([])
    else match (ParseEach(items[..|items| - 1], parse), parse(items[|items| - 1]))
      case (Some(chain), Some(addr)) => Some(chain + [addr])
      case _ => None
  }

  function ElementParser<A>(node: string -> Option<A>): string -> Option<A> {
    e => ParseElement(e, node)
  }

  function TrimmedNode<A>(node: string -> Option<A>): string -> Option<A> {
    part => node(Trim(part))
  }

  function ParseText<A>(text: string, node: string -> Option<A>): Option<seq<A>> {
    match Split(text, ',')
    case None => None
    case Some(elements) => ParseEach(elements, ElementParser(node))
  }

  /** parseForwarded: all lines of the header, joined by commas. */
  function ParseForwarded<A>(values: seq<string>, node: string -> Option<A>): Option<seq<A>> {
    ParseText(Join(values, ','), node)
  }

  /** strings.Split at commas. */
  function CommaSplit(s: string): (ps: seq<string>)
    ensures |ps| > 0
  {
    if s == "" then [""]
    else if s[0] == ',' then [""] + CommaSplit(s[1..])
    else var rest := CommaSplit(s[1..]); [[s[0]] + rest[0]] + rest[1..]
  }

  function ParseXForwardedFor<A>(values: seq<string>, node: string -> Option<A>): Option<seq<A>> {
    ParseEach(CommaSplit(Join(values, ',')), TrimmedNode(node))
  }

  // ---------------------------------------------------------------- parsing is a homomorphism

  function Concat<A>(a: Option<seq<A>>, b: Option<seq<A>>): Option<seq<A>> {
    if a.Some? && b.Some? then Some(a.value + b.value) else None
  }

  lemma {:induction false} ParseEachAppend<A>(a: seq<string>, b: seq<string>, parse: string -> Option<A>)
    ensures ParseEach(a + b, parse) == Concat(ParseEach(a, parse), ParseEach(b, parse))
    decreases |b|
  {
    if b == [] {
      assert a + b == a;
      if ParseEach(a, parse).Some? {
        assert ParseEach(a, parse).value + [] == ParseEach(a, parse).value;
      }
    } else {
      var n := |b| - 1;
      ParseEachAppend(a, b[..n], parse);
      assert (a + b)[..|a + b| - 1] == a + b[..n];
      if ParseEach(a + b, parse).Some? || Concat(ParseEach(a, parse), ParseEach(b, parse)).Some? {
        var x, y, last := ParseEach(a, parse).value, ParseEach(b[..n], parse).value, parse(b[n]).value;
        assert x + (y + [last]) == x + y + [last];
      }
    }
  }

  /** When the first text leaves no quote open, parsing the comma join is parsing both. */
  lemma ParseTextJoin<A>(a: string, b: string, node: string -> Option<A>)
    requires Balanced(a)
    ensures ParseText(a + "," + b, node) == Concat(ParseText(a, node), ParseText(b, node))
  {
    SplitJoin(a, b, ',');
    if Split(a, ',').Some? && Split(b, ',').Some? {
      ParseEachAppend(Split(a, ',').value, Split(b, ',').value, ElementParser(node));
    }
  }

  /** Header lines: if the lines of each header leave no quote open, the chain of all lines is the
      concatenation of the two chains, and it is valid exactly when both are. */
  lemma ForwardedIsHomomorphic<A>(a: seq<string>, b: seq<string>, node: string -> Option<A>)
    requires a != [] && b != [] && Balanced(Join(a, ','))
    ensures ParseForwarded(a + b, node) == Concat(ParseForwarded(a, node), ParseForwarded(b, node))
  {
    JoinAppend(a, b, ',');
    ParseTextJoin(Join(a, ','), Join(b, ','), node);
  }

  lemma {:induction false} CommaSplitJoin(a: string, b: string)
    ensures CommaSplit(a + "," + b) == CommaSplit(a) + CommaSplit(b)
  {
    var s := a + "," + b;
    if a == "" {
      assert s[1..] == b;
    } else {
      CommaSplitJoin(a[1..], b);
      assert s[1..] == a[1..] + "," + b;
      ConsPieces(CommaSplit(a[1..]), CommaSplit(b), a[0]);
    }
  }

  lemma XForwardedForIsHomomorphic<A>(a: seq<string>, b: seq<string>, node: string -> Option<A>)
    requires a != [] && b != []
    ensures ParseXForwardedFor(a + b, node) == Concat(ParseXForwardedFor(a, node), ParseXForwardedFor(b, node))
  {
    JoinAppend(a, b, ',');
    CommaSplitJoin(Join(a, ','), Join(b, ','));
    ParseEachAppend(CommaSplit(Join(a, ',')), CommaSplit(Join(b, ',')), TrimmedNode(node));
  }

  // ---------------------------------------------------------------- rendering and parsing back

  function RenderElement(text: string): string {
    "for=" + Quote(text)
  }

  /** A character that does not split can be put in front of a single piece. */
  lemma PrependToPiece(c: char, rest: string, sep: char, m: Mode)
    requires !(m == Plain && c == sep) && Pieces(rest, sep, Scan1(m, c)) == [rest]
    ensures Pieces([c] + rest, sep, m) == [[c] + rest]
    ensures Scan(m, [c] + rest) == Scan(Scan1(m, c), rest)
  {
    assert ([c] + rest)[1..] == rest;
  }

  lemma {:induction false} EscapedStaysQuoted(s: string, sep: char)
    ensures Scan(Quoted, EscapeBody(s) + "\"") == Plain
    ensures Pieces(EscapeBody(s) + "\"", sep, Quoted) == [EscapeBody(s) + "\""]
  {
    if s == "" {
      PrependToPiece('"', "", sep, Quoted);
      assert EscapeBody(s) + "\"" == ['"'] + "";
    } else {
      EscapedStaysQuoted(s[1..], sep);
      var rest := EscapeBody(s[1..]) + "\"";
      EscapeFirst(s, rest);
      if s[0] == '"' || s[0] == '\\' {
        PrependToPiece(s[0], rest, sep, Escaped);
        PrependToPiece('\\', [s[0]] + rest, sep, Quoted);
      } else {
        PrependToPiece(s[0], rest, sep, Quoted);
      }
    }
  }

  lemma EscapeFirst(s: string, rest: string)
    requires s != "" && rest == EscapeBody(s[1..]) + "\""
    ensures EscapeBody(s) + "\""
         == if s[0] == '"' || s[0] == '\\' then ['\\'] + ([s[0]] + rest) else [s[0]] + rest
  {
  }

  lemma QuoteIsOnePiece(text: string, sep: char)
    requires IsSeparator(sep)
    ensures Balanced(Quote(text)) && Pieces(Quote(text), sep, Plain) == [Quote(text)]
  {
    EscapedStaysQuoted(text, sep);
    assert Quote(text) == ['"'] + (EscapeBody(text) + "\"");
    PrependToPiece('"', EscapeBody(text) + "\"", sep, Plain);
  }

  lemma ElementIsOnePiece(text: string, sep: char)
    requires IsSeparator(sep)
    ensures Balanced(RenderElement(text))
    ensures Pieces(RenderElement(text), sep, Plain) == [RenderElement(text)]
  {
    var q := Quote(text);
    QuoteIsOnePiece(text, sep);
    PrependToPiece('=', q, sep, Plain);
    PrependToPiece('r', ['='] + q, sep, Plain);
    PrependToPiece('o', ['r'] + (['='] + q), sep, Plain);
    PrependToPiece('f', ['o'] + (['r'] + (['='] + q)), sep, Plain);
    assert RenderElement(text) == ['f'] + (['o'] + (['r'] + (['='] + q)));
  }

  lemma ElementIsTrim(text: string)
    ensures Trim(RenderElement(text)) == RenderElement(text)
    ensures Trim(Quote(text)) == Quote(text)
  {
  }

  lemma ElementSplit(text: string, sep: char)
    requires IsSeparator(sep)
    ensures Split(RenderElement(text), sep) == Some([RenderElement(text)])
  {
    ElementIsOnePiece(text, sep);
    ElementIsTrim(text);
    assert TrimAll([RenderElement(text)]) == [RenderElement(text)];
  }

  lemma PrependToKey(c: char, rest: string, k: string, v: string)
    requires c != '=' && CutAtEquals(rest) == Some((k, v))
    ensures CutAtEquals([c] + rest) == Some(([c] + k, v))
  {
    assert ([c] + rest)[1..] == rest;
  }

  lemma ElementCut(text: string)
    ensures CutAtEquals(RenderElement(text)) == Some(("for", Quote(text)))
  {
    var q := Quote(text);
    assert (['='] + q)[1..] == q;
    assert ['r'] + "" == "r" && ['o'] + "r" == "or" && ['f'] + "or" == "for";
    PrependToKey('r', ['='] + q, "", q);
    PrependToKey('o', ['r'] + (['='] + q), "r", q);
    PrependToKey('f', ['o'] + (['r'] + (['='] + q)), "or", q);
    assert RenderElement(text) == ['f'] + (['o'] + (['r'] + (['='] + q)));
  }

  lemma ForIsFor()
    ensures Trim("for") == "for" && LowerAscii("for") == "for"
  {
    assert LowerAscii("or") == "or" by {
      assert LowerAscii("r") == "r";
    }
  }

  lemma ElementRoundTrip<A>(text: string, node: string -> Option<A>)
    requires Printable(text)
    ensures ParseElement(RenderElement(text), node) == node(text)
  {
    ElementSplit(text, ';');
    ElementCut(text);
    ElementIsTrim(text);
    QuoteRoundTrip(text);
    ForIsFor();
    OneParam(RenderElement(text), node, None);
    assert CutAtEquals(RenderElement(text)) == Some(("for", Quote(text)));
    assert Unquote(Trim(Quote(text))) == Some(text);
  }

  lemma OneParam<A>(param: string, node: string -> Option<A>, found: Option<A>)
    ensures ReadParams([param], node, found) == ReadParam(param, node, found)
  {
    assert [param][1..] == [];
  }

  function RenderAll(texts: seq<string>): seq<string> {
    seq(|texts|, i requires 0 <= i < |texts| => RenderElement(texts[i]))
  }

  lemma BalancedJoin(a: string, b: string)
    requires Balanced(a) && Balanced(b)
    ensures Balanced(a + "," + b)
  {
    ScanAppend(Plain, a, "," + b);
    assert a + "," + b == a + ("," + b);
    assert ("," + b)[1..] == b;
  }

  lemma {:induction false} RenderedIsBalanced(texts: seq<string>)
    requires texts != []
    ensures Balanced(Join(RenderAll(texts), ','))
  {
    var n := |texts| - 1;
    var r := RenderElement(texts[n]);
    ElementIsOnePiece(texts[n], ',');
    assert RenderAll(texts) == RenderAll(texts[..n]) + [r];
    if n == 0 {
      assert RenderAll(texts) == [r];
    } else {
      RenderedIsBalanced(texts[..n]);
      JoinAppend(RenderAll(texts[..n]), [r], ',');
      BalancedJoin(Join(RenderAll(texts[..n]), ','), r);
    }
  }

  /** Whatever printable texts a chain is made of, with quotes, commas and semicolons in them, writing
      each as a quoted `for` element and parsing the header gives back exactly those nodes. */
  lemma {:induction false} ChainRoundTrip<A>(texts: seq<string>, node: string -> Option<A>)
    requires texts != [] && forall i :: 0 <= i < |texts| ==> Printable(texts[i])
    ensures ParseForwarded(RenderAll(texts), node) == ParseEach(texts, node)
  {
    var n := |texts| - 1;
    var last, front := texts[n], texts[..n];
    OneElement(last, node);
    if n == 0 {
      ParseOne(last, node);
      assert texts == [last];
      assert RenderAll(texts) == [RenderElement(last)];
    } else {
      assert RenderAll(texts) == RenderAll(front) + [RenderElement(last)];
      ChainRoundTrip(front, node);
      RenderedIsBalanced(front);
      ForwardedIsHomomorphic(RenderAll(front), [RenderElement(last)], node);
    }
  }

  lemma ParseOne<A>(item: string, parse: string -> Option<A>)
    ensures ParseEach([item], parse) == match parse(item) case None => None case Some(a) => Some([a])
  {
    assert [item][..0] == [] && ParseEach([item][..0], parse) == Some([]);
    if parse(item).Some? {
      assert [] + [parse(item).value] == [parse(item).value];
    }
  }

  lemma OneElement<A>(text: string, node: string -> Option<A>)
    requires Printable(text)
    ensures ParseForwarded([RenderElement(text)], node) ==
            match node(text) case None => None case Some(a) => Some([a])
  {
    ElementSplit(text, ',');
    ElementRoundTrip(text, node);
    ParseOne(RenderElement(text), ElementParser(node));
    assert Join([RenderElement(text)], ',') == RenderElement(text);
  }
}
