/** Both forwarding headers together. A trusted proxy may append to either; the client may have sent lines of
    both, and the proxy may or may not take the client's Forwarded lines out. Since any Forwarded line makes
    the server pass over X-Forwarded-For (internal/ws/client_ip.go), what the proxy appends there is safe
    only if no Forwarded line of the client gets through. */
module ClientLines {
  import opened Wrappers
  import opened Forwarded
  import opened ClientIp
  import opened OpenQuotes

  /** What the server is sent: the client's lines in front of the proxy's, in each header. */
  function Arriving<A>(passes: bool, clientForwarded: seq<string>, forwarded: seq<string>,
                       clientXff: seq<string>, xff: seq<string>, node: string -> Option<A>): Option<seq<A>>
  {
    Chain((if passes then clientForwarded else []) + forwarded, clientXff + xff, node)
  }

  /** With these lines of its own, the client is still the one that the proxy's lines name, or the header does
      not parse and the proxy itself is the client. */
  predicate KeptBy<A(==)>(chain: Option<seq<A>>, client: A, proxy: A, trusted: A -> bool) {
    var id := Identity(Some(proxy), chain, trusted);
    id == Some(client) || (id == Some(proxy) && chain == None)
  }

  /** No lines of the client change who the client is. */
  ghost predicate AlwaysKept<A>(passes: bool, forwarded: seq<string>, xff: seq<string>, client: A, proxy: A,
                                trusted: A -> bool, node: string -> Option<A>)
  {
    forall clientForwarded, clientXff ::
      KeptBy(Arriving(passes, clientForwarded, forwarded, clientXff, xff, node), client, proxy, trusted)
  }

  /** A client's Forwarded line that gets through to a server behind a proxy that appends X-Forwarded-For. */
  lemma ForwardedOverrides<A>(text: string, clientXff: seq<string>, xff: seq<string>, proxy: A,
                              trusted: A -> bool, node: string -> Option<A>)
    requires Printable(text) && node(text).Some? && trusted(proxy)
    ensures Arriving(true, [RenderElement(text)], [], clientXff, xff, node) == Some([node(text).value])
    ensures Identity(Some(proxy), Chain([RenderElement(text)], clientXff + xff, node), trusted) == node(text)
  {
    OneElement(text, node);
    assert [RenderElement(text)] + [] == [RenderElement(text)];
  }

  lemma ForwardedLineChooses<A>(honest: string, text: string, line: string, proxy: A,
                                trusted: A -> bool, node: string -> Option<A>)
    requires Bare(honest) && Trim(honest) == honest && Bare(text) && Printable(text)
    requires line == "for=\"" + text + "\""
    requires node(honest).Some? && node(text).Some? && trusted(proxy)
    ensures Identity(Some(proxy), Chain([], [honest], node), trusted) == node(honest)
    ensures Identity(Some(proxy), Chain([line], [honest], node), trusted) == node(text)
  {
    OneXForwardedFor(honest, node);
    EscapeBare(text);
    assert RenderElement(text) == line;
    ForwardedOverrides(text, [], [honest], proxy, trusted, node);
    assert [] + [honest] == [honest];
  }

  /** An input, written out: the proxy's X-Forwarded-For line names `client`, and with one Forwarded line of the
      client's the header names `other`. */
  lemma ForwardedLineChoosesTheClient<A>(honest: string, line: string, client: A, other: A, proxy: A,
                                         trusted: A -> bool, node: string -> Option<A>)
    requires honest == "192.0.2.1" && line == "for=\"198.51.100.6\""
    requires node(honest) == Some(client) && node("198.51.100.6") == Some(other) && client != other
    requires trusted(proxy) && !trusted(client) && !trusted(other)
    ensures Identity(Some(proxy), Chain([], [honest], node), trusted) == Some(client)
    ensures Identity(Some(proxy), Chain([line], [honest], node), trusted) == Some(other)
  {
    assert Trim(honest) == honest;
    ForwardedLineChooses(honest, "198.51.100.6", line, proxy, trusted, node);
  }

  lemma OneXForwardedFor<A>(text: string, node: string -> Option<A>)
    requires node(text).Some? && Bare(text) && Trim(text) == text
    ensures ParseXForwardedFor([text], node) == Some([node(text).value])
  {
    WithoutComma(text);
    assert Join([text], ',') == text;
    ParseOne(text, TrimmedNode(node));
  }

  lemma {:induction false} WithoutComma(text: string)
    requires Bare(text)
    ensures CommaSplit(text) == [text]
  {
    if text != "" {
      assert text[0] in text && forall c :: c in text[1..] ==> c in text;
      WithoutComma(text[1..]);
      assert [text[0]] + text[1..] == text;
    }
  }

  /** The proxy appended X-Forwarded-For only, and takes the client's Forwarded lines out. */
  lemma StrippedXffKeeps<A>(clientForwarded: seq<string>, clientXff: seq<string>, xff: seq<string>, hops: seq<A>,
                            proxy: A, trusted: A -> bool, node: string -> Option<A>)
    requires Chain([], xff, node) == Some(hops) && trusted(proxy) && !AllTrusted(hops, trusted)
    ensures KeptBy(Arriving(false, clientForwarded, [], clientXff, xff, node), Choose(hops, trusted), proxy, trusted)
  {
    EarlierXForwardedFor(clientXff, xff, hops, proxy, trusted, node);
  }

  /** The proxy appended Forwarded lines: X-Forwarded-For is passed over. */
  lemma AppendedForwardedKeeps<A>(passes: bool, clientForwarded: seq<string>, forwarded: seq<string>,
                                  clientXff: seq<string>, xff: seq<string>, hops: seq<A>, proxy: A,
                                  trusted: A -> bool, node: string -> Option<A>)
    requires forwarded != [] && ParseForwarded(forwarded, node) == Some(hops)
    requires trusted(proxy) && !AllTrusted(hops, trusted)
    requires passes ==> Guarded(forwarded, Choose(hops, trusted), trusted, node)
    ensures KeptBy(Arriving(passes, clientForwarded, forwarded, clientXff, xff, node), Choose(hops, trusted), proxy,
                   trusted)
  {
    if passes {
      GuardedLinesKeep(clientForwarded, forwarded, hops, proxy, trusted, node);
    } else {
      assert [] + forwarded == forwarded;
    }
  }

  /** The one input against lines that do not keep the client. */
  lemma SomeLineLoses<A>(forwarded: seq<string>, xff: seq<string>, hops: seq<A>, proxy: A, text: string,
                         trusted: A -> bool, node: string -> Option<A>)
    requires Chain(forwarded, xff, node) == Some(hops) && trusted(proxy) && !AllTrusted(hops, trusted)
    requires Printable(text) && node(text).Some? && !trusted(node(text).value)
             && node(text).value != Choose(hops, trusted)
    requires forwarded == [] || !Guarded(forwarded, Choose(hops, trusted), trusted, node)
    ensures !AlwaysKept(true, forwarded, xff, Choose(hops, trusted), proxy, trusted, node)
  {
    var client := Choose(hops, trusted);
    if forwarded == [] {
      ForwardedOverrides(text, [], xff, proxy, trusted, node);
      assert !KeptBy(Arriving(true, [RenderElement(text)], forwarded, [], xff, node), client, proxy, trusted);
    } else {
      UnguardedLinesLose(forwarded, hops, proxy, text, trusted, node);
      var first := FrontLine(text, forwarded, node);
      assert !KeptBy(Arriving(true, [first], forwarded, [], xff, node), client, proxy, trusted);
    }
  }

  /** Exactly when client-supplied lines, of either header, cannot choose the client. Let the lines that a
      trusted proxy appended, to either header, name a client with an untrusted hop, and let there be some
      other untrusted address. No lines of the client change that if and only if the proxy takes the client's
      Forwarded lines out, or appends Forwarded lines itself and these are guarded. */
  lemma ClientLinesCannotChooseTheClient<A>(passes: bool, forwarded: seq<string>, xff: seq<string>, hops: seq<A>,
                                            proxy: A, text: string, trusted: A -> bool, node: string -> Option<A>)
    requires Chain(forwarded, xff, node) == Some(hops) && trusted(proxy) && !AllTrusted(hops, trusted)
    requires Printable(text) && node(text).Some? && !trusted(node(text).value)
             && node(text).value != Choose(hops, trusted)
    ensures AlwaysKept(passes, forwarded, xff, Choose(hops, trusted), proxy, trusted, node)
       <==> !passes || (forwarded != [] && Guarded(forwarded, Choose(hops, trusted), trusted, node))
  {
    var client := Choose(hops, trusted);
    if !passes || (forwarded != [] && Guarded(forwarded, client, trusted, node)) {
      forall clientForwarded, clientXff
        ensures KeptBy(Arriving(passes, clientForwarded, forwarded, clientXff, xff, node), client, proxy, trusted)
      {
        if forwarded == [] {
          StrippedXffKeeps(clientForwarded, clientXff, xff, hops, proxy, trusted, node);
        } else {
          AppendedForwardedKeeps(passes, clientForwarded, forwarded, clientXff, xff, hops, proxy, trusted, node);
        }
      }
    } else {
      SomeLineLoses(forwarded, xff, hops, proxy, text, trusted, node);
    }
  }
}
