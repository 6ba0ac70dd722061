/** What the header parsers accept, said without parsing: each of them from both sides. */
module ForwardedExact {
  import opened Wrappers
  import opened Forwarded

  // ---------------------------------------------------------------- trimming, letter case, the first '='

  /** The white space of ASCII: space, and the characters 9 to 13. */
  const WHITE := {' ', '\t', '\n', '\U{0B}', '\U{0C}', '\r'}

  ghost predicate Blank(s: string) {
    forall c :: c in s ==> c in WHITE
  }

  lemma WhiteSpace(c: char)
    ensures IsSpace(c) <==> c in WHITE
  {
  }

  lemma {:induction false} TrimLeftParts(s: string) returns (left: string)
    ensures s == left + TrimLeft(s) && Blank(left) && (TrimLeft(s) != "" ==> TrimLeft(s)[0] !in WHITE)
  {
    if s != "" {
      WhiteSpace(s[0]);
    }
    if s != "" && IsSpace(s[0]) {
      var rest := TrimLeftParts(s[1..]);
      left := [s[0]] + rest;
      calc {
        s;
        [s[0]] + s[1..];
        [s[0]] + (rest + TrimLeft(s[1..]));
        left + TrimLeft(s[1..]);
        left + TrimLeft(s);
      }
    } else {
      left := "";
    }
  }

  lemma {:induction false} TrimRightParts(s: string) returns (right: string)
    ensures s == TrimRight(s) + right && Blank(right)
    ensures TrimRight(s) != "" ==> TrimRight(s)[|TrimRight(s)| - 1] !in WHITE && TrimRight(s)[0] == s[0]
  {
    if s != "" {
      WhiteSpace(s[|s| - 1]);
    }
    if s != "" && IsSpace(s[|s| - 1]) {
      var n := |s| - 1;
      var rest := TrimRightParts(s[..n]);
      right := rest + [s[n]];
      assert s == s[..n] + [s[n]];
    } else {
      right := "";
      assert s + "" == s;
    }
  }

  /** Trimming takes away blanks at both ends and nothing else, and leaves none there. */
  lemma TrimIsExact(s: string) returns (left: string, right: string)
    ensures s == left + Trim(s) + right && Blank(left) && Blank(right)
    ensures Trim(s) != "" ==> Trim(s)[0] !in WHITE && Trim(s)[|Trim(s)| - 1] !in WHITE
  {
    left := TrimLeftParts(s);
    right := TrimRightParts(TrimLeft(s));
    assert left + (Trim(s) + right) == left + Trim(s) + right;
  }

  /** Two characters of ASCII are the same letter. */
  predicate SameLetter(c: char, low: char) {
    c == low || ('A' <= c <= 'Z' && c as int + 32 == low as int)
  }

  lemma {:induction false} LowerAsciiAt(s: string, i: nat, low: char)
    requires i < |s| && 'a' <= low <= 'z'
    ensures |LowerAscii(s)| == |s| && (LowerAscii(s)[i] == low <==> SameLetter(s[i], low))
    decreases |s|
  {
    LowerAsciiLength(s[1..]);
    if i > 0 {
      LowerAsciiAt(s[1..], i - 1, low);
    }
  }

  lemma {:induction false} LowerAsciiLength(s: string)
    ensures |LowerAscii(s)| == |s|
  {
    if s != "" {
      LowerAsciiLength(s[1..]);
    }
  }

  /** The key is `for` in any mix of cases, and nothing else. */
  lemma ForInAnyCase(key: string)
    ensures LowerAscii(key) == "for"
       <==> |key| == 3 && SameLetter(key[0], 'f') && SameLetter(key[1], 'o') && SameLetter(key[2], 'r')
  {
    LowerAsciiLength(key);
    SpellsFor(LowerAscii(key));
    if |key| == 3 {
      LowerAsciiAt(key, 0, 'f');
      LowerAsciiAt(key, 1, 'o');
      LowerAsciiAt(key, 2, 'r');
    }
  }

  lemma SpellsFor(low: string)
    ensures low == "for" <==> |low| == 3 && low[0] == 'f' && low[1] == 'o' && low[2] == 'r'
  {
    if |low| == 3 {
      assert low == [low[0], low[1], low[2]];
    }
  }

  /** The cut is at the first '='. */
  lemma {:induction false} CutIsExact(s: string, k: string, v: string)
    ensures CutAtEquals(s) == Some((k, v)) <==> s == k + "=" + v && '=' !in k
    ensures CutAtEquals(s) == None <==> '=' !in s
  {
    if s != "" {
      if s[0] == '=' {
        CutFirst(s, k, v);
      } else {
        CutIsExact(s[1..], if k == "" then "" else k[1..], v);
        CutLater(s, k, v);
        assert k != "" ==> k == [k[0]] + k[1..];
        if CutAtEquals(s[1..]).Some? {
          var (rest, _) := CutAtEquals(s[1..]).value;
          assert ([s[0]] + rest)[1..] == rest;
        }
      }
    }
  }

  lemma CutFirst(s: string, k: string, v: string)
    requires s != "" && s[0] == '='
    ensures s == k + "=" + v && '=' !in k <==> k == "" && v == s[1..]
  {
    if s == k + "=" + v && k != "" {
      assert s[0] == k[0];
    }
    if k == "" && v == s[1..] {
      assert s == k + "=" + v;
    }
  }

  lemma CutLater(s: string, k: string, v: string)
    requires s != "" && s[0] != '='
    ensures s == k + "=" + v && '=' !in k <==> k != "" && k[0] == s[0] && s[1..] == k[1..] + "=" + v && '=' !in k[1..]
    ensures '=' !in s <==> '=' !in s[1..]
  {
    if k != "" {
      assert (k + "=" + v)[1..] == k[1..] + "=" + v;
      assert k == [k[0]] + k[1..];
      assert s == [s[0]] + s[1..];
      assert k + "=" + v == [k[0]] + (k[1..] + "=" + v);
    } else {
      assert (k + "=" + v)[0] == '=';
    }
    assert s == [s[0]] + s[1..];
  }

  // ---------------------------------------------------------------- unquoting

  /** b is t with a backslash before some characters, and before each quote and backslash. */
  ghost predicate Escapes(b: string, t: string) {
    if t == "" then b == ""
    else
      || (b != "" && b[0] == t[0] && t[0] != '"' && t[0] != '\\' && Escapes(b[1..], t[1..]))
      || (|b| >= 2 && b[0] == '\\' && b[1] == t[0] && Escapes(b[2..], t[1..]))
  }

  lemma {:induction false} UnquoteBodyIsExact(b: string, t: string)
    ensures UnquoteBody(b) == Some(t) <==> Escapes(b, t) && Printable(t)
    decreases |b|
  {
    if t != "" {
      PrintableCons(t);
    }
    if b != "" {
      var rest := if t == "" then "" else t[1..];
      if b[0] == '\\' && |b| > 1 {
        UnquoteBodyIsExact(b[2..], rest);
      } else if b[0] != '\\' {
        UnquoteBodyIsExact(b[1..], rest);
      }
      assert t != "" ==> [t[0]] + t[1..] == t;
    }
  }

  /** Unquoting gives a text exactly when the value is that text bare, without quotes or backslashes, or is the
      text in quotes, printable, with any characters escaped but all quotes and backslashes. */
  lemma UnquoteIsExact(v: string, t: string)
    ensures Unquote(v) == Some(t) <==>
            || (v == t && '"' !in t && '\\' !in t)
            || (|v| >= 2 && v[0] == '"' && v[|v| - 1] == '"' && Escapes(v[1..|v| - 1], t) && Printable(t))
  {
    if |v| >= 2 {
      UnquoteBodyIsExact(v[1..|v| - 1], t);
    }
  }

  // ---------------------------------------------------------------- splitting

  /** The pieces, joined again, are the text, and no piece can be split further. */
  lemma PiecesAreExact(s: string, sep: char, m: Mode)
    ensures Join(Pieces(s, sep, m), sep) == s
    ensures forall i :: 0 <= i < |Pieces(s, sep, m)| ==>
              Pieces(Pieces(s, sep, m)[i], sep, if i == 0 then m else Plain) == [Pieces(s, sep, m)[i]]
  {
    PiecesRejoin(s, sep, m);
    PiecesAreWhole(s, sep, m);
  }

  lemma {:induction false} PiecesRejoin(s: string, sep: char, m: Mode)
    ensures Join(Pieces(s, sep, m), sep) == s
  {
    if s != "" {
      if m == Plain && s[0] == sep {
        PiecesRejoin(s[1..], sep, Plain);
        assert Join([""] + Pieces(s[1..], sep, Plain), sep) == [sep] + s[1..];
      } else {
        PiecesRejoin(s[1..], sep, Scan1(m, s[0]));
        JoinCons(s[0], Pieces(s[1..], sep, Scan1(m, s[0])), sep);
      }
      assert s == [s[0]] + s[1..];
    }
  }

  lemma {:induction false} PiecesAreWhole(s: string, sep: char, m: Mode)
    ensures forall i :: 0 <= i < |Pieces(s, sep, m)| ==>
              Pieces(Pieces(s, sep, m)[i], sep, if i == 0 then m else Plain) == [Pieces(s, sep, m)[i]]
  {
    if s != "" {
      if m == Plain && s[0] == sep {
        PiecesAreWhole(s[1..], sep, Plain);
      } else {
        PiecesAreWhole(s[1..], sep, Scan1(m, s[0]));
        PieceCons(s[0], Pieces(s[1..], sep, Scan1(m, s[0]))[0], sep, m);
      }
    }
  }

  lemma JoinCons(c: char, p: seq<string>, sep: char)
    requires p != []
    ensures Join([[c] + p[0]] + p[1..], sep) == [c] + Join(p, sep)
  {
    assert ([[c] + p[0]] + p[1..])[1..] == p[1..];
  }

  lemma PieceCons(c: char, piece: string, sep: char, m: Mode)
    requires !(m == Plain && c == sep) && Pieces(piece, sep, Scan1(m, c)) == [piece]
    ensures Pieces([c] + piece, sep, m) == [[c] + piece]
  {
    assert ([c] + piece)[1..] == piece;
  }

  /** Splitting at commas: joined again, the text; and no comma in any part. */
  lemma {:induction false} CommaSplitIsExact(s: string)
    ensures Join(CommaSplit(s), ',') == s
    ensures forall i :: 0 <= i < |CommaSplit(s)| ==> ',' !in CommaSplit(s)[i]
  {
    if s != "" {
      CommaSplitIsExact(s[1..]);
      if s[0] == ',' {
        assert Join([""] + CommaSplit(s[1..]), ',') == [','] + s[1..];
      } else {
        JoinCons(s[0], CommaSplit(s[1..]), ',');
      }
      assert s == [s[0]] + s[1..];
    }
  }

  lemma {:induction false} NoCommaIsOnePart(s: string)
    requires ',' !in s
    ensures CommaSplit(s) == [s]
  {
    if s != "" {
      assert s[0] in s && forall c :: c in s[1..] ==> c in s;
      NoCommaIsOnePart(s[1..]);
      assert [s[0]] + s[1..] == s;
    }
  }

  /** Any parts without commas, blank ones included, in one X-Forwarded-For line: each is parsed as a node. */
  lemma {:induction false} XForwardedForIsExact<A>(parts: seq<string>, node: string -> Option<A>)
    requires parts != [] && forall i :: 0 <= i < |parts| ==> ',' !in parts[i]
    ensures ParseXForwardedFor([Join(parts, ',')], node) == ParseEach(parts, TrimmedNode(node))
  {
    PartsComeBack(parts);
    assert Join([Join(parts, ',')], ',') == Join(parts, ',');
  }

  lemma {:induction false} PartsComeBack(parts: seq<string>)
    requires parts != [] && forall i :: 0 <= i < |parts| ==> ',' !in parts[i]
    ensures CommaSplit(Join(parts, ',')) == parts
  {
    NoCommaIsOnePart(parts[0]);
    if |parts| > 1 {
      PartsComeBack(parts[1..]);
      CommaSplitJoin(parts[0], Join(parts[1..], ','));
      assert [parts[0]] + parts[1..] == parts;
    } else {
      assert parts == [parts[0]];
    }
  }

  // ---------------------------------------------------------------- elements

  /** A `for` parameter, in any case, whose value unquotes to a node. */
  ghost predicate NamesHop<A>(param: string, node: string -> Option<A>, hop: A) {
    && CutAtEquals(param).Some?
    && var (key, value) := CutAtEquals(param).value;
    && LowerAscii(Trim(key)) == "for"
    && Unquote(Trim(value)).Some? && node(Unquote(Trim(value)).value) == Some(hop)
  }

  /** Any other parameter: it has a key that is not blank, and not `for`. */
  ghost predicate OtherParam(param: string) {
    && CutAtEquals(param).Some?
    && Trim(CutAtEquals(param).value.0) != "" && LowerAscii(Trim(CutAtEquals(param).value.0)) != "for"
  }

  lemma ParamIsOneOf<A>(param: string, node: string -> Option<A>, found: Option<A>)
    ensures ReadParam(param, node, found) == Some(found) <==> OtherParam(param)
    ensures forall hop :: NamesHop(param, node, hop) ==>
              !OtherParam(param) && ReadParam(param, node, None) == Some(Some(hop))
    ensures !OtherParam(param) && found.Some? ==> ReadParam(param, node, found) == None
    ensures forall hop :: ReadParam(param, node, None) == Some(Some(hop)) ==> NamesHop(param, node, hop)
  {
    assert LowerAscii("") == "";
  }

  /** After a `for` only other parameters are allowed. */
  lemma {:induction false} OnlyOthersAfter<A>(params: seq<string>, node: string -> Option<A>, hop: A)
    ensures ReadParams(params, node, Some(hop)) == (if OnlyOthers(params) then Some(Some(hop)) else None)
  {
    if params != [] {
      ParamIsOneOf(params[0], node, Some(hop));
      OnlyOthersAfter(params[1..], node, hop);
      OthersCons(params);
    }
  }

  ghost predicate OnlyOthers(params: seq<string>) {
    forall i :: 0 <= i < |params| ==> OtherParam(params[i])
  }

  lemma OthersCons(params: seq<string>)
    requires params != []
    ensures OnlyOthers(params) <==> OtherParam(params[0]) && OnlyOthers(params[1..])
  {
    if OtherParam(params[0]) && OnlyOthers(params[1..]) {
      forall i | 0 <= i < |params| ensures OtherParam(params[i]) {
        assert i > 0 ==> params[i] == params[1..][i - 1];
      }
    }
  }

  /** The i-th parameter names the hop and all others are other parameters. */
  ghost predicate NamedBy<A>(params: seq<string>, node: string -> Option<A>, hop: A, i: nat) {
    i < |params| && NamesHop(params[i], node, hop) && forall j :: 0 <= j < |params| && j != i ==> OtherParam(params[j])
  }

  lemma {:induction false} ParamsAreExact<A>(params: seq<string>, node: string -> Option<A>, hop: A)
    ensures ReadParams(params, node, None) == Some(Some(hop)) <==> exists i: nat :: NamedBy(params, node, hop, i)
  {
    if params != [] {
      ParamIsOneOf(params[0], node, None);
      NamedFirst(params, node, hop);
      if OtherParam(params[0]) {
        ParamsAreExact(params[1..], node, hop);
        NamedLater(params, node, hop);
      } else if ReadParam(params[0], node, None).Some? {
        OnlyOthersAfter(params[1..], node, ReadParam(params[0], node, None).value.value);
      }
    }
  }

  lemma NamedFirst<A>(params: seq<string>, node: string -> Option<A>, hop: A)
    requires params != []
    ensures NamedBy(params, node, hop, 0) <==> NamesHop(params[0], node, hop) && OnlyOthers(params[1..])
    ensures !OtherParam(params[0]) ==> forall i: nat :: NamedBy(params, node, hop, i) ==> i == 0
  {
    if NamesHop(params[0], node, hop) && OnlyOthers(params[1..]) {
      forall j | 0 < j < |params| ensures OtherParam(params[j]) {
        assert params[j] == params[1..][j - 1];
      }
    }
  }

  lemma NamedLater<A>(params: seq<string>, node: string -> Option<A>, hop: A)
    requires params != [] && OtherParam(params[0])
    ensures (exists i: nat :: NamedBy(params, node, hop, i)) <==> (exists i: nat :: NamedBy(params[1..], node, hop, i))
  {
    if i: nat :| NamedBy(params, node, hop, i) {
      ParamIsOneOf(params[0], node, None);
      assert i > 0;
      assert forall j :: 0 <= j < |params| - 1 ==> params[1..][j] == params[j + 1];
      assert NamedBy(params[1..], node, hop, i - 1);
    }
    if i: nat :| NamedBy(params[1..], node, hop, i) {
      assert forall j :: 0 < j < |params| ==> params[j] == params[1..][j - 1];
      assert NamedBy(params, node, hop, i + 1);
    }
  }

  /** An element parses to a hop exactly when it splits, exactly one of its parameters is a `for`, in any case,
      whose value unquotes to the node of that hop, and all others have keys that are not blank. */
  lemma ElementIsExact<A>(element: string, node: string -> Option<A>, hop: A)
    ensures ParseElement(element, node) == Some(hop) <==>
            Split(element, ';').Some? && exists i: nat :: NamedBy(Split(element, ';').value, node, hop, i)
  {
    if Split(element, ';').Some? {
      ParamsAreExact(Split(element, ';').value, node, hop);
    }
  }

  /** A header parses to a chain exactly when it splits into elements that parse to its hops, one by one. */
  lemma {:induction false} EachIsExact<A>(items: seq<string>, parse: string -> Option<A>, chain: seq<A>)
    ensures ParseEach(items, parse) == Some(chain) <==>
            |chain| == |items| && forall i :: 0 <= i < |items| ==> parse(items[i]) == Some(chain[i])
  {
    if items != [] {
      var n := |items| - 1;
      if chain != [] {
        EachIsExact(items[..n], parse, chain[..|chain| - 1]);
        assert chain == chain[..|chain| - 1] + [chain[|chain| - 1]];
      }
    }
  }
}
