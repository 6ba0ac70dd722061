/** The binary frames of internal/proto: the audio frame shared by WebSocket and UDP, and the four
    UDP control frames. The byte layouts are functions; the packers and unpackers work on slices of
    real buffers, as the source does, and are proved against those functions. */
module Wire {
  import opened Wrappers

  type byte = b: int | 0 <= b < 0x100

  const AUDIO_FRAME_TYPE: byte := 0xA1
  const UDP_HELLO_TYPE: byte := 0xC0
  const UDP_WELCOME_TYPE: byte := 0xC1
  const UDP_PING_TYPE: byte := 0xC2
  const UDP_PONG_TYPE: byte := 0xC3

  const AUDIO_HEADER_SIZE := 24
  const MAX_AUDIO_PAYLOAD := 8192
  const PEER_ID_SIZE := 16
  const TOKEN_SIZE := 32
  const UDP_HELLO_SIZE := 52
  const UDP_PING_SIZE := 20   // also the size of a welcome and of a pong

  type PeerId = s: seq<byte> | |s| == PEER_ID_SIZE witness seq(PEER_ID_SIZE, _ => 0)
  type Token = s: seq<byte> | |s| == TOKEN_SIZE witness seq(TOKEN_SIZE, _ => 0)
  type uint16 = n: int | 0 <= n < 0x1_0000

  datatype AudioHeader = AudioHeader(source: PeerId, seqNo: uint16, length: uint16)
  datatype AudioFrame = AudioFrame(header: AudioHeader, payload: seq<byte>)
  datatype AudioError = TooShort | BadType | PayloadTooBig | LengthMismatch
  datatype Hello = Hello(peer: PeerId, token: Token)
  datatype UdpError = BadSize | BadUdpType

  // ---------------------------------------------------------------- layouts

  function LittleEndian16(n: uint16): (s: seq<byte>) {
    [n % 0x100, n / 0x100]
  }

  function FromLittleEndian16(lo: byte, hi: byte): uint16 {
    lo + 0x100 * hi
  }

  function AudioHeaderBytes(source: PeerId, seqNo: uint16, length: uint16): (s: seq<byte>)
    ensures |s| == AUDIO_HEADER_SIZE
  {
    [AUDIO_FRAME_TYPE, 0, 0, 0] + source + LittleEndian16(seqNo) + LittleEndian16(length)
  }

  /** The frame Pack produces: the length field is the payload's size, whatever the header said. */
  function AudioBytes(source: PeerId, seqNo: uint16, payload: seq<byte>): seq<byte>
    requires |payload| <= MAX_AUDIO_PAYLOAD
  {
    AudioHeaderBytes(source, seqNo, |payload|) + payload
  }

  function ParseAudio(src: seq<byte>): Result<AudioFrame, AudioError> {
    if |src| < AUDIO_HEADER_SIZE then Err(TooShort)
    else if src[0] != AUDIO_FRAME_TYPE then Err(BadType)
    else
      var length := FromLittleEndian16(src[22], src[23]);
      if length > MAX_AUDIO_PAYLOAD then Err(PayloadTooBig)
      else if length + AUDIO_HEADER_SIZE != |src| then Err(LengthMismatch)
      else Ok(AudioFrame(AudioHeader(src[4..20], FromLittleEndian16(src[20], src[21]), length), src[24..]))
  }

  function HelloBytes(h: Hello): (s: seq<byte>)
    ensures |s| == UDP_HELLO_SIZE
  {
    [UDP_HELLO_TYPE, 0, 0, 0] + h.peer + h.token
  }

  function ParseHello(src: seq<byte>): Result<Hello, UdpError> {
    if |src| != UDP_HELLO_SIZE then Err(BadSize)
    else if src[0] != UDP_HELLO_TYPE then Err(BadUdpType)
    else Ok(Hello(src[4..20], src[20..52]))
  }

  /** Welcome, ping and pong share one layout and differ only in the type byte. */
  function PeerFrameBytes(frameType: byte, peer: PeerId): (s: seq<byte>)
    ensures |s| == UDP_PING_SIZE
  {
    [frameType, 0, 0, 0] + peer
  }

  function ParsePing(src: seq<byte>): Result<PeerId, UdpError> {
    if |src| != UDP_PING_SIZE then Err(BadSize)
    else if src[0] != UDP_PING_TYPE then Err(BadUdpType)
    else Ok(src[4..20])
  }

  // ---------------------------------------------------------------- properties of the layouts

  lemma LittleEndian16RoundTrip(n: uint16)
    ensures FromLittleEndian16(LittleEndian16(n)[0], LittleEndian16(n)[1]) == n
  {
  }

  lemma LittleEndian16Inverse(lo: byte, hi: byte)
    ensures LittleEndian16(FromLittleEndian16(lo, hi)) == [lo, hi]
  {
  }

  /** Unpacking a packed audio frame gives back the fields, for every payload the packer accepts. */
  lemma AudioRoundTrip(source: PeerId, seqNo: uint16, payload: seq<byte>)
    requires |payload| <= MAX_AUDIO_PAYLOAD
    ensures ParseAudio(AudioBytes(source, seqNo, payload))
         == Ok(AudioFrame(AudioHeader(source, seqNo, |payload|), payload))
  {
    var s := AudioBytes(source, seqNo, payload);
    LittleEndian16RoundTrip(seqNo);
    LittleEndian16RoundTrip(|payload|);
    assert s[4..20] == source;
    assert s[20] == LittleEndian16(seqNo)[0] && s[21] == LittleEndian16(seqNo)[1];
    assert s[22] == LittleEndian16(|payload|)[0] && s[23] == LittleEndian16(|payload|)[1];
    assert s[24..] == payload;
  }

  /** Repacking an accepted frame reproduces it exactly when the three reserved bytes are zero: the
      unpacker ignores them and the packer writes zeros. */
  lemma AudioRepack(src: seq<byte>)
    requires ParseAudio(src).Ok?
    ensures var f := ParseAudio(src).value;
            && |f.payload| <= MAX_AUDIO_PAYLOAD
            && (AudioBytes(f.header.source, f.header.seqNo, f.payload) == src <==> src[1..4] == [0, 0, 0])
  {
    var f := ParseAudio(src).value;
    var s := AudioBytes(f.header.source, f.header.seqNo, f.payload);
    LittleEndian16Inverse(src[20], src[21]);
    LittleEndian16Inverse(src[22], src[23]);
    assert s[1..4] == [0, 0, 0];
    assert |s| == |src|;
    if src[1..4] == [0, 0, 0] {
      assert src[1] == src[1..4][0] && src[2] == src[1..4][1] && src[3] == src[1..4][2];
      forall i | 0 <= i < |s| ensures s[i] == src[i] {
        if 4 <= i < 20 {
          assert s[i] == f.header.source[i - 4];
        }
      }
      assert s == src;
    }
  }

  /** Acceptance is exactly: header present, type byte, declared length in range and equal to the
      number of bytes that follow the header. */
  lemma AudioAcceptance(src: seq<byte>)
    ensures ParseAudio(src).Ok? <==>
            && AUDIO_HEADER_SIZE <= |src| <= AUDIO_HEADER_SIZE + MAX_AUDIO_PAYLOAD
            && src[0] == AUDIO_FRAME_TYPE
            && src[22..24] == LittleEndian16(|src| - AUDIO_HEADER_SIZE)
  {
    if AUDIO_HEADER_SIZE <= |src| <= AUDIO_HEADER_SIZE + MAX_AUDIO_PAYLOAD {
      LittleEndian16RoundTrip(|src| - AUDIO_HEADER_SIZE);
      LittleEndian16Inverse(src[22], src[23]);
      assert src[22..24] == [src[22], src[23]];
    }
  }

  lemma HelloRoundTrip(h: Hello)
    ensures ParseHello(HelloBytes(h)) == Ok(h)
  {
    var s := HelloBytes(h);
    assert s[4..20] == h.peer && s[20..52] == h.token;
  }

  lemma HelloRepack(src: seq<byte>)
    requires ParseHello(src).Ok?
    ensures HelloBytes(ParseHello(src).value) == src <==> src[1..4] == [0, 0, 0]
  {
    var s := HelloBytes(ParseHello(src).value);
    assert s[1..4] == [0, 0, 0];
    if src[1..4] == [0, 0, 0] {
      assert src[1] == src[1..4][0] && src[2] == src[1..4][1] && src[3] == src[1..4][2];
      assert s == src[..1] + src[1..4] + src[4..20] + src[20..52];
      assert s == src;
    }
  }

  lemma PingRoundTrip(peer: PeerId)
    ensures ParsePing(PeerFrameBytes(UDP_PING_TYPE, peer)) == Ok(peer)
  {
    assert PeerFrameBytes(UDP_PING_TYPE, peer)[4..20] == peer;
  }

  // ---------------------------------------------------------------- slices of real buffers

  /** A Go slice: a window of `len` bytes, extensible to `cap`, over a shared buffer. */
  datatype Slice = Slice(buf: array<byte>, off: nat, len: nat, cap: nat) {
    predicate Valid()
    {
      len <= cap && off + cap <= buf.Length
    }

    function View(): seq<byte>
      requires Valid()
      reads buf
    {
      buf[off..off + len]
    }
  }

  /** Reuses dst's storage when its capacity suffices, otherwise allocates. The contents are not
      specified; the caller overwrites them. */
  method Reserve(dst: Slice, total: nat) returns (out: Slice)
    requires dst.Valid()
    ensures out.Valid() && out.len == total
    ensures total <= dst.cap ==> out == Slice(dst.buf, dst.off, total, dst.cap)
    ensures total > dst.cap ==> fresh(out.buf) && out.off == 0
  {
    if dst.cap < total {
      var storage := new byte[total](_ => 0);
      out := Slice(storage, 0, total, total);
    } else {
      out := Slice(dst.buf, dst.off, total, dst.cap);
    }
  }

  /** Go's copy(out[at:], bytes): the bytes are read before any is written. */
  method Copy(out: Slice, at: nat, bytes: seq<byte>)
    requires out.Valid() && at + |bytes| <= out.len
    modifies out.buf
    ensures forall k :: 0 <= k < out.buf.Length ==>
              out.buf[k] == if out.off + at <= k < out.off + at + |bytes|
                            then bytes[k - out.off - at] else old(out.buf[k])
  {
    forall i | 0 <= i < |bytes| {
      out.buf[out.off + at + i] := bytes[i];
    }
  }

  /** The same, with what the whole slice reads afterwards. */
  method CopyInto(out: Slice, at: nat, bytes: seq<byte>)
    requires out.Valid() && at + |bytes| <= out.len
    modifies out.buf
    ensures forall k :: 0 <= k < out.buf.Length && !(out.off <= k < out.off + out.len) ==> out.buf[k] == old(out.buf[k])
    ensures out.View() == old(out.View())[..at] + bytes + old(out.View())[at + |bytes|..]
  {
    ghost var was, cells := out.View(), out.buf[..];
    assert forall k :: 0 <= k < out.len ==> was[k] == cells[out.off + k];
    Copy(out, at, bytes);
    assert forall k :: 0 <= k < out.len ==> out.View()[k] == out.buf[out.off + k];
    assert out.View() == was[..at] + bytes + was[at + |bytes|..];
  }

  /** What a payload slice reads once `header` has been written at the front of `out`: a payload cell
      that lies under the new header reads as header, every other cell is as before. */
  function PayloadUnderHeader(payload: Slice, out: Slice, header: seq<byte>, before: seq<byte>): (s: seq<byte>)
    ensures |s| == |before|
    ensures (forall i :: 0 <= i < |before| ==> !LiesUnder(payload, i, out, |header|)) ==> s == before
  {
    seq(|before|, i requires 0 <= i < |before| =>
      if LiesUnder(payload, i, out, |header|) then header[payload.off + i - out.off] else before[i])
  }

  predicate LiesUnder(payload: Slice, i: nat, out: Slice, size: nat)
  {
    payload.buf == out.buf && 0 <= payload.off + i - out.off < size
  }

  /** Writes `header` and then the payload slice behind it. */
  method WriteFrame(header: seq<byte>, payload: Slice, out: Slice)
    requires payload.Valid() && out.Valid() && out.len == |header| + payload.len
    modifies out.buf
    ensures out.View() == header + PayloadUnderHeader(payload, out, header, old(payload.View()))
    ensures forall k :: 0 <= k < out.buf.Length && !(out.off <= k < out.off + out.len) ==> out.buf[k] == old(out.buf[k])
  {
    ghost var before, cells := payload.View(), payload.buf[..];
    assert forall i :: 0 <= i < payload.len ==> before[i] == cells[payload.off + i];
    Copy(out, 0, header);
    var bytes := payload.buf[payload.off..payload.off + payload.len];
    BytesUnderHeader(header, payload, out, before, cells);
    Copy(out, |header|, bytes);
    HeaderThenBytes(out, header, bytes);
  }

  lemma HeaderThenBytes(out: Slice, header: seq<byte>, bytes: seq<byte>)
    requires out.Valid() && out.len == |header| + |bytes|
    requires forall i :: 0 <= i < |header| ==> out.buf[out.off + i] == header[i]
    requires forall i :: 0 <= i < |bytes| ==> out.buf[out.off + |header| + i] == bytes[i]
    ensures out.View() == header + bytes
  {
    assert forall k :: 0 <= k < out.len ==> out.View()[k] == out.buf[out.off + k];
    forall k | 0 <= k < out.len ensures out.View()[k] == (header + bytes)[k] {
      if k >= |header| {
        assert out.buf[out.off + |header| + (k - |header|)] == bytes[k - |header|];
      }
    }
  }

  /** What a payload reads after `header` was written at the front of out, over storage that held `cells`. */
  lemma BytesUnderHeader(header: seq<byte>, payload: Slice, out: Slice, before: seq<byte>, cells: seq<byte>)
    requires payload.Valid() && out.Valid() && |header| <= out.len
    requires |before| == payload.len && |cells| == payload.buf.Length
    requires forall i :: 0 <= i < payload.len ==> before[i] == cells[payload.off + i]
    requires forall k :: 0 <= k < payload.buf.Length ==>
               payload.buf[k] == if payload.buf == out.buf && out.off <= k < out.off + |header| then header[k - out.off]
                                 else cells[k]
    ensures payload.View() == PayloadUnderHeader(payload, out, header, before)
  {
    forall i | 0 <= i < payload.len ensures payload.View()[i] == PayloadUnderHeader(payload, out, header, before)[i] {
      assert payload.View()[i] == payload.buf[payload.off + i];
    }
  }

  /** Packs a header and payload into dst. Every output byte is pinned down even when payload and dst
      share storage: the header is written first and the final copy tolerates overlap. With no
      payload cell under the header the result is the plain layout, whatever else overlaps. */
  method Pack(h: AudioHeader, payload: Slice, dst: Slice) returns (r: Result<Slice, AudioError>)
    requires payload.Valid() && dst.Valid()
    modifies dst.buf
    ensures payload.len > MAX_AUDIO_PAYLOAD ==> r == Err(PayloadTooBig) && unchanged(dst.buf)
    ensures payload.len <= MAX_AUDIO_PAYLOAD ==>
              && r.Ok? && r.value.Valid()
              && (if AUDIO_HEADER_SIZE + payload.len <= dst.cap then r.value.buf == dst.buf && r.value.off == dst.off
                  else fresh(r.value.buf))
              && var header := AudioHeaderBytes(h.source, h.seqNo, payload.len);
              && r.value.View() == header + PayloadUnderHeader(payload, r.value, header, old(payload.View()))
    ensures r.Ok? && (forall i :: 0 <= i < payload.len ==> !LiesUnder(payload, i, r.value, AUDIO_HEADER_SIZE)) ==>
              r.value.View() == AudioHeaderBytes(h.source, h.seqNo, payload.len) + old(payload.View())
    ensures forall k :: 0 <= k < dst.buf.Length && !(dst.off <= k < dst.off + AUDIO_HEADER_SIZE + payload.len) ==>
              dst.buf[k] == old(dst.buf[k])
  {
    if payload.len > MAX_AUDIO_PAYLOAD {
      return Err(PayloadTooBig);
    }
    var out := Reserve(dst, AUDIO_HEADER_SIZE + payload.len);
    WriteFrame(AudioHeaderBytes(h.source, h.seqNo, payload.len), payload, out);
    r := Ok(out);
  }

  /** The returned payload aliases src, exactly as in the source. */
  method Unpack(src: Slice) returns (r: Result<(AudioHeader, Slice), AudioError>)
    requires src.Valid()
    ensures match ParseAudio(src.View())
            case Err(e) => r == Err(e)
            case Ok(f) => && r.Ok? && r.value.0 == f.header && r.value.1.Valid()
                          && r.value.1.buf == src.buf && r.value.1.off == src.off + AUDIO_HEADER_SIZE
                          && r.value.1.View() == f.payload
  {
    if src.len < AUDIO_HEADER_SIZE {
      return Err(TooShort);
    }
    if src.buf[src.off] != AUDIO_FRAME_TYPE {
      return Err(BadType);
    }
    var source := src.buf[src.off + 4..src.off + 20];
    ViewPart(src, 4, 20);
    var seqNo := FromLittleEndian16(src.buf[src.off + 20], src.buf[src.off + 21]);
    var length := FromLittleEndian16(src.buf[src.off + 22], src.buf[src.off + 23]);
    if length > MAX_AUDIO_PAYLOAD {
      return Err(PayloadTooBig);
    }
    if length + AUDIO_HEADER_SIZE != src.len {
      return Err(LengthMismatch);
    }
    r := Ok((AudioHeader(source, seqNo, length),
             Slice(src.buf, src.off + AUDIO_HEADER_SIZE, src.len - AUDIO_HEADER_SIZE, src.cap - AUDIO_HEADER_SIZE)));
    ViewPart(src, AUDIO_HEADER_SIZE, src.len);
  }

  /** A part of what a slice reads is that part of its buffer. */
  lemma ViewPart(s: Slice, i: nat, j: nat)
    requires s.Valid() && i <= j <= s.len
    ensures s.View()[i..j] == s.buf[s.off + i..s.off + j]
  {
    var part := s.View()[i..j];
    assert |part| == j - i;
    assert forall k :: 0 <= k < j - i ==> part[k] == s.View()[i + k] == s.buf[s.off + i + k];
  }

  method PackHello(h: Hello, dst: Slice) returns (out: Slice)
    requires dst.Valid()
    modifies dst.buf
    ensures out.Valid() && out.View() == HelloBytes(h)
    ensures UDP_HELLO_SIZE <= dst.cap ==> out.buf == dst.buf && out.off == dst.off
    ensures forall k :: 0 <= k < dst.buf.Length && !(dst.off <= k < dst.off + UDP_HELLO_SIZE) ==>
              dst.buf[k] == old(dst.buf[k])
  {
    out := Reserve(dst, UDP_HELLO_SIZE);
    CopyInto(out, 0, [UDP_HELLO_TYPE, 0, 0, 0]);
    CopyInto(out, 4, h.peer);
    CopyInto(out, 20, h.token);
  }

  /** PackUdpWelcome, PackUdpPing and PackUdpPong: the same code with their own type byte. */
  method PackPeerFrame(frameType: byte, peer: PeerId, dst: Slice) returns (out: Slice)
    requires dst.Valid()
    modifies dst.buf
    ensures out.Valid() && out.View() == PeerFrameBytes(frameType, peer)
    ensures UDP_PING_SIZE <= dst.cap ==> out.buf == dst.buf && out.off == dst.off
    ensures forall k :: 0 <= k < dst.buf.Length && !(dst.off <= k < dst.off + UDP_PING_SIZE) ==>
              dst.buf[k] == old(dst.buf[k])
  {
    out := Reserve(dst, UDP_PING_SIZE);
    CopyInto(out, 0, [frameType, 0, 0, 0]);
    CopyInto(out, 4, peer);
  }
}
