/** clientIP and the loops behind it, proved against the definitions of module Forwarded; and what the
    choice of a client address depends on. */
module ClientIp {
  import opened Wrappers
  import opened Forwarded

  // ---------------------------------------------------------------- the loops

  function ModeOf(quoted: bool, escaped: bool): Mode {
    if escaped then Escaped else if quoted then Quoted else Plain
  }

  lemma TrimAllAppend(raw: seq<string>, piece: string)
    ensures TrimAll(raw + [piece]) == TrimAll(raw) + [Trim(piece)]
  {
  }

  /** A blank piece anywhere makes the split fail. */
  lemma BlankPieceFails(value: string, sep: char, raw: seq<string>, piece: string, rest: seq<string>)
    requires Pieces(value, sep, Plain) == raw + [piece] + rest && Trim(piece) == ""
    ensures Split(value, sep) == None
  {
    var parts := TrimAll(Pieces(value, sep, Plain));
    assert parts[|raw|] == "";
  }

  /** The scan has reached i in the given mode: `raw` are the pieces cut so far, the current piece
      began at `start`, and the rest of the text contributes the rest. */
  ghost predicate ScannedTo(value: string, sep: char, i: nat, start: nat, raw: seq<string>, m: Mode) {
    && start <= i <= |value|
    && Scan(Plain, value) == Scan(m, value[i..])
    && var p := Pieces(value[i..], sep, m);
       Pieces(value, sep, Plain) == raw + [value[start..i] + p[0]] + p[1..]
  }

  lemma ScanBegins(value: string, sep: char)
    ensures ScannedTo(value, sep, 0, 0, [], Plain)
  {
    var p := Pieces(value, sep, Plain);
    assert value[0..] == value;
    assert value[0..0] + p[0] == p[0];
    assert [] + [p[0]] + p[1..] == p;
  }

  lemma ScanContinues(value: string, sep: char, i: nat, start: nat, raw: seq<string>, m: Mode)
    requires ScannedTo(value, sep, i, start, raw, m) && i < |value|
    requires !(m == Plain && value[i] == sep)
    ensures ScannedTo(value, sep, i + 1, start, raw, Scan1(m, value[i]))
  {
    var p := Pieces(value[i + 1..], sep, Scan1(m, value[i]));
    assert value[i..][1..] == value[i + 1..];
    assert value[start..i] + ([value[i]] + p[0]) == value[start..i + 1] + p[0];
  }

  lemma PutFirstBack(front: seq<string>, p: seq<string>)
    requires p != []
    ensures front + [p[0]] + p[1..] == front + p
  {
    assert p == [p[0]] + p[1..];
  }

  lemma ScanCuts(value: string, sep: char, i: nat, start: nat, raw: seq<string>)
    requires ScannedTo(value, sep, i, start, raw, Plain) && i < |value|
    requires value[i] == sep && IsSeparator(sep)
    ensures ScannedTo(value, sep, i + 1, i + 1, raw + [value[start..i]], Plain)
    ensures Pieces(value, sep, Plain) == raw + [value[start..i]] + Pieces(value[i + 1..], sep, Plain)
  {
    var p := Pieces(value[i + 1..], sep, Plain);
    assert value[i..][1..] == value[i + 1..];
    assert Pieces(value[i..], sep, Plain) == [""] + p;
    assert value[start..i] + "" == value[start..i];
    assert ([""] + p)[1..] == p;
    assert value[i + 1..i + 1] + p[0] == p[0];
    PutFirstBack(raw + [value[start..i]], p);
  }

  lemma ScanEnds(value: string, sep: char, start: nat, raw: seq<string>, m: Mode)
    requires ScannedTo(value, sep, |value|, start, raw, m)
    ensures Scan(Plain, value) == m
    ensures Pieces(value, sep, Plain) == raw + [value[start..]]
  {
    assert value[|value|..] == "";
    assert value[start..|value|] + "" == value[start..];
    assert raw + [value[start..]] + [] == raw + [value[start..]];
  }

  method SplitOutsideQuotes(value: string, separator: char) returns (r: Option<seq<string>>)
    requires IsSeparator(separator)
    ensures r == Split(value, separator)
  {
    var parts: seq<string> := [];
    ghost var raw: seq<string> := [];
    var start, quoted, escaped := 0, false, false;
    ScanBegins(value, separator);
    for i := 0 to |value|
      invariant escaped ==> quoted
      invariant ScannedTo(value, separator, i, start, raw, ModeOf(quoted, escaped))
      invariant parts == TrimAll(raw) && "" !in parts
    {
      var c := value[i];
      if c == separator && !quoted && !escaped {
        ScanCuts(value, separator, i, start, raw);
      } else {
        ScanContinues(value, separator, i, start, raw, ModeOf(quoted, escaped));
      }
      if escaped {
        escaped := false;
        continue;
      }
      if quoted && c == '\\' {
        escaped := true;
        continue;
      }
      if c == '"' {
        quoted := !quoted;
        continue;
      }
      if c == separator && !quoted {
        var part := Trim(value[start..i]);
        if part == "" {
          BlankPieceFails(value, separator, raw, value[start..i], Pieces(value[i + 1..], separator, Plain));
          return None;
        }
        TrimAllAppend(raw, value[start..i]);
        raw := raw + [value[start..i]];
        parts := parts + [part];
        start := i + 1;
      }
    }
    ScanEnds(value, separator, start, raw, ModeOf(quoted, escaped));
    if quoted || escaped {
      return None;
    }
    var part := Trim(value[start..]);
    TrimAllAppend(raw, value[start..]);
    if part == "" {
      assert raw + [value[start..]] + [] == raw + [value[start..]];
      BlankPieceFails(value, separator, raw, value[start..], []);
      return None;
    }
    r := Some(parts + [part]);
  }

  function Prefixed(done: string, rest: Option<string>): Option<string> {
    match rest case None => None case Some(s) => Some(done + s)
  }

  lemma PrefixedTwice(done: string, c: char, rest: Option<string>)
    ensures Prefixed(done, Prefixed([c], rest)) == Prefixed(done + [c], rest)
  {
    assert rest.Some? ==> done + ([c] + rest.value) == done + [c] + rest.value;
  }

  lemma PrefixedEmpty(done: string, rest: Option<string>)
    ensures Prefixed("", rest) == rest && Prefixed(done, Some("")) == Some(done)
  {
    assert rest.Some? ==> "" + rest.value == rest.value;
    assert done + "" == done;
  }

  /** The text from i on, by its first character, which a backslash escapes. */
  lemma UnquoteFrom(value: string, i: nat, end: nat)
    requires i < end <= |value|
    ensures var k := if value[i] == '\\' then i + 1 else i;
            UnquoteBody(value[i..end])
            == if k == end || value[i] == '"' || IsControl(value[k]) then None
               else Prefixed([value[k]], UnquoteBody(value[k + 1..end]))
  {
    var body := value[i..end];
    assert body[1..] == value[i + 1..end];
    if value[i] == '\\' && i + 1 < end {
      assert body[2..] == value[i + 2..end];
    }
  }

  method UnquoteForwardedValue(value: string) returns (r: Option<string>)
    ensures r == Unquote(value)
  {
    if value == "" || value[0] != '"' {
      return if '"' in value || '\\' in value then None else Some(value);
    }
    if |value| < 2 || value[|value| - 1] != '"' {
      return None;
    }
    var end := |value| - 1;
    var out := "";
    var i := 1;
    PrefixedEmpty(out, UnquoteBody(value[1..end]));
    while i < end
      invariant 1 <= i <= end
      invariant UnquoteBody(value[1..end]) == Prefixed(out, UnquoteBody(value[i..end]))
    {
      var c := value[i];
      UnquoteFrom(value, i, end);
      if c == '\\' {
        i := i + 1;
        if i >= end {
          return None;
        }
        c := value[i];
      } else if c == '"' {
        return None;
      }
      if IsControl(c) {
        return None;
      }
      PrefixedTwice(out, c, UnquoteBody(value[i + 1..end]));
      out := out + [c];
      i := i + 1;
    }
    assert value[end..end] == "";
    PrefixedEmpty(out, None);
    r := Some(out);
  }

  method ParseParam<A>(param: string, node: string -> Option<A>, found: Option<A>) returns (r: Option<Option<A>>)
    ensures r == ReadParam(param, node, found)
  {
    var cut := CutAtEquals(param);
    if cut.None? || Trim(cut.value.0) == "" {
      return None;
    }
    if LowerAscii(Trim(cut.value.0)) != "for" {
      return Some(found);
    }
    if found.Some? {
      return None;
    }
    var text := UnquoteForwardedValue(Trim(cut.value.1));
    if text.None? {
      return None;
    }
    var addr := node(text.value);
    r := if addr.None? then None else Some(addr);
  }

  method ParseElementParams<A>(params: seq<string>, node: string -> Option<A>) returns (r: Option<A>)
    ensures r == Found(ReadParams(params, node, None))
  {
    var found: Option<A> := None;
    assert params[0..] == params;
    for i := 0 to |params|
      invariant ReadParams(params, node, None) == ReadParams(params[i..], node, found)
    {
      assert params[i..][1..] == params[i + 1..];
      var next := ParseParam(params[i], node, found);
      if next.None? {
        return None;
      }
      found := next.value;
    }
    assert params[|params|..] == [];
    r := found;
  }

  /** One item that does not parse fails the whole list. */
  lemma {:induction false} OneFailureFailsAll<A>(items: seq<string>, parse: string -> Option<A>, i: nat)
    requires i < |items| && parse(items[i]) == None
    ensures ParseEach(items, parse) == None
  {
    if i < |items| - 1 {
      OneFailureFailsAll(items[..|items| - 1], parse, i);
    }
  }

  lemma ParseNext<A>(items: seq<string>, parse: string -> Option<A>, i: nat)
    requires i < |items| && ParseEach(items[..i], parse).Some? && parse(items[i]).Some?
    ensures ParseEach(items[..i + 1], parse) == Some(ParseEach(items[..i], parse).value + [parse(items[i]).value])
  {
    assert items[..i + 1][..i] == items[..i];
  }

  method ParseForwardedHeader<A>(values: seq<string>, node: string -> Option<A>) returns (r: Option<seq<A>>)
    ensures r == ParseForwarded(values, node)
  {
    var elements := SplitOutsideQuotes(Join(values, ','), ',');
    if elements.None? {
      return None;
    }
    var items := elements.value;
    var chain: seq<A> := [];
    for i := 0 to |items|
      invariant ParseEach(items[..i], ElementParser(node)) == Some(chain)
    {
      var params := SplitOutsideQuotes(items[i], ';');
      if params.None? {
        OneFailureFailsAll(items, ElementParser(node), i);
        return None;
      }
      var addr := ParseElementParams(params.value, node);
      if addr.None? {
        OneFailureFailsAll(items, ElementParser(node), i);
        return None;
      }
      ParseNext(items, ElementParser(node), i);
      chain := chain + [addr.value];
    }
    assert items[..|items|] == items;
    r := Some(chain);
  }

  method ParseXForwardedForHeader<A>(values: seq<string>, node: string -> Option<A>) returns (r: Option<seq<A>>)
    ensures r == ParseXForwardedFor(values, node)
  {
    var parts := CommaSplit(Join(values, ','));
    var chain: seq<A> := [];
    for i := 0 to |parts|
      invariant ParseEach(parts[..i], TrimmedNode(node)) == Some(chain)
    {
      var addr := node(Trim(parts[i]));
      if addr.None? {
        OneFailureFailsAll(parts, TrimmedNode(node), i);
        return None;
      }
      ParseNext(parts, TrimmedNode(node), i);
      chain := chain + [addr.value];
    }
    assert parts[..|parts|] == parts;
    r := Some(chain);
  }

  // ---------------------------------------------------------------- choosing the hop

  /** The last untrusted hop, or the first hop when all are trusted. */
  function Choose<A>(chain: seq<A>, trusted: A -> bool): A
    requires chain != []
  {
    var last := chain[|chain| - 1];
    if !trusted(last) || |chain| == 1 then last
    else if AllTrusted(chain, trusted) then chain[0]
    else Choose(chain[..|chain| - 1], trusted)
  }

  predicate AllTrusted<A>(chain: seq<A>, trusted: A -> bool) {
    forall i :: 0 <= i < |chain| ==> trusted(chain[i])
  }

  /** What Choose chooses, without the walk: the untrusted hop after which all hops are trusted. */
  lemma {:induction false} ChosenHop<A>(chain: seq<A>, trusted: A -> bool, i: nat)
    requires i < |chain| && !trusted(chain[i]) && forall j :: i < j < |chain| ==> trusted(chain[j])
    ensures Choose(chain, trusted) == chain[i]
  {
    var n := |chain| - 1;
    if i < n {
      ChosenHop(chain[..n], trusted, i);
    }
  }

  method WalkHops<A>(chain: seq<A>, trusted: A -> bool) returns (hop: A)
    requires chain != []
    ensures hop == Choose(chain, trusted)
  {
    for i := |chain| downto 0
      invariant forall j :: i <= j < |chain| ==> trusted(chain[j])
    {
      if !trusted(chain[i]) {
        ChosenHop(chain, trusted, i);
        return chain[i];
      }
    }
    hop := chain[0];
  }

  /** Hops in front never change the choice once the rest has an untrusted hop. */
  lemma {:induction false} PrefixKeepsChoice<A>(prefix: seq<A>, chain: seq<A>, trusted: A -> bool)
    requires chain != [] && !AllTrusted(chain, trusted)
    ensures Choose(prefix + chain, trusted) == Choose(chain, trusted)
  {
    var i := LastUntrusted(chain, trusted);
    ChosenHop(chain, trusted, i);
    ChosenHop(prefix + chain, trusted, |prefix| + i);
  }

  lemma {:induction false} LastUntrusted<A>(chain: seq<A>, trusted: A -> bool) returns (i: nat)
    requires !AllTrusted(chain, trusted)
    ensures i < |chain| && !trusted(chain[i]) && forall j :: i < j < |chain| ==> trusted(chain[j])
  {
    var n := |chain| - 1;
    if !trusted(chain[n]) {
      i := n;
    } else {
      assert !AllTrusted(chain[..n], trusted);
      i := LastUntrusted(chain[..n], trusted);
    }
  }

  // ---------------------------------------------------------------- the client's identity

  /** The chain clientIP walks: Forwarded when present, otherwise X-Forwarded-For. */
  function Chain<A>(forwarded: seq<string>, xForwardedFor: seq<string>, node: string -> Option<A>): Option<seq<A>> {
    if forwarded != [] then ParseForwarded(forwarded, node)
    else if xForwardedFor != [] then ParseXForwardedFor(xForwardedFor, node)
    else None
  }

  /** The address used for rate limiting. A transport address that does not parse is used as it is. */
  function Identity<A>(direct: Option<A>, chain: Option<seq<A>>, trusted: A -> bool): Option<A> {
    match direct
    case None => None
    case Some(d) =>
      if !trusted(d) || chain == None || chain.value == [] then Some(d) else Some(Choose(chain.value, trusted))
  }

  /** Only a trusted proxy's headers are believed: an untrusted or unparsable transport address is the identity
      whatever they say, and a trusted one when they name no chain. Otherwise it is the hop after which all are
      trusted, or the first when all are. */
  method ClientIP<A(==)>(direct: Option<A>, forwarded: seq<string>, xForwardedFor: seq<string>,
                         trusted: A -> bool, node: string -> Option<A>) returns (id: Option<A>)
    ensures id == Identity(direct, Chain(forwarded, xForwardedFor, node), trusted)
    ensures direct.None? || !trusted(direct.value) ==> id == direct
    ensures direct.Some? && trusted(direct.value) ==>
              var chain := if forwarded != [] then ParseForwarded(forwarded, node)
                           else if xForwardedFor != [] then ParseXForwardedFor(xForwardedFor, node)
                           else None;
              && (chain.None? || chain.value == [] ==> id == direct)
              && (chain.Some? && chain.value != [] ==>
                    && (AllTrusted(chain.value, trusted) ==> id == Some(chain.value[0]))
                    && forall i :: 0 <= i < |chain.value| && LastUntrustedAt(chain.value, trusted, i) ==>
                         id == Some(chain.value[i]))
  {
    if direct.None? || !trusted(direct.value) {
      return direct;
    }
    var chain: Option<seq<A>> := None;
    if |forwarded| > 0 {
      chain := ParseForwardedHeader(forwarded, node);
    } else if |xForwardedFor| > 0 {
      chain := ParseXForwardedForHeader(xForwardedFor, node);
    }
    if chain.None? || |chain.value| == 0 {
      return direct;
    }
    ghost var hops := chain.value;
    var hop := WalkHops(chain.value, trusted);
    id := Some(hop);
    forall i | 0 <= i < |hops| && LastUntrustedAt(hops, trusted, i) ensures hop == hops[i] {
      ChosenHop(hops, trusted, i);
    }
  }

  /** Hop i is not trusted, and all hops after it are. */
  ghost predicate LastUntrustedAt<A>(chain: seq<A>, trusted: A -> bool, i: nat) {
    i < |chain| && !trusted(chain[i]) && forall j :: i < j < |chain| ==> trusted(chain[j])
  }

  // ---------------------------------------------------------------- what earlier lines can do

  /** X-Forwarded-For has no quotes. Let the lines a proxy appended parse, with an untrusted hop. Whatever
      lines came before them, well-formed or not, the client is the one the proxy's lines name, or the
      header does not parse and the proxy itself is the client. */
  lemma EarlierXForwardedFor<A>(earlier: seq<string>, appended: seq<string>, hops: seq<A>, proxy: A,
                                trusted: A -> bool, node: string -> Option<A>)
    requires appended != [] && ParseXForwardedFor(appended, node) == Some(hops)
    requires trusted(proxy) && !AllTrusted(hops, trusted)
    ensures Identity(Some(proxy), Chain([], appended, node), trusted) == Some(Choose(hops, trusted))
    ensures var id := Identity(Some(proxy), Chain([], earlier + appended, node), trusted);
            || id == Some(Choose(hops, trusted))
            || (id == Some(proxy) && ParseXForwardedFor(earlier + appended, node) == None)
  {
    if earlier == [] {
      assert earlier + appended == appended;
    } else {
      XForwardedForIsHomomorphic(earlier, appended, node);
      if ParseXForwardedFor(earlier, node).Some? {
        PrefixKeepsChoice(ParseXForwardedFor(earlier, node).value, hops, trusted);
      }
    }
  }
}
