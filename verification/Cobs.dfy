/**
 * Consistent Overhead Byte Stuffing as the IPC link uses it: the firmware's bounded,
 * array-based codec (firmware/crsf/src/ipc.c) and the Go side's growing-slice codec
 * (tools/zerotx-bench/ipc_client.go, pi/daemon/internal/ipc/framing.go), both proved
 * against one pair of functions.
 */
module Cobs {
  import opened Bytes

  /** Encoding of `data` when `block` has already been collected behind an open code byte. */
  function EncodeFrom(block: seq<byte>, data: seq<byte>): seq<byte>
    requires |block| <= 253
    decreases |data|
  {
    if data == [] then [|block| + 1] + block
    else if data[0] == 0 then [|block| + 1] + block + EncodeFrom([], data[1..])
    else if |block| == 253 then [255] + block + [data[0]] + EncodeFrom([], data[1..])
    else EncodeFrom(block + [data[0]], data[1..])
  }

  function Encode(data: seq<byte>): seq<byte> {
    EncodeFrom([], data)
  }

  /** Decoding of a run of blocks; None for a zero or an overlong code byte. */
  function DecodeBlocks(src: seq<byte>): Option<seq<byte>>
    decreases |src|
  {
    if src == [] then Some([])
    else if src[0] == 0 || src[0] > |src| then None
    else Prepend(FirstBlock(src), DecodeBlocks(src[src[0]..]))
  }

  /** The bytes of the first block, with the zero it stands for unless it is full or the last. */
  function FirstBlock(src: seq<byte>): seq<byte>
    requires src != [] && 0 < src[0] <= |src|
  {
    src[1..src[0]] + (if src[0] != 255 && src[0] < |src| then [0] else [])
  }

  function Prepend(p: seq<byte>, r: Option<seq<byte>>): Option<seq<byte>> {
    match r
    case None => None
    case Some(t) => Some(p + t)
  }

  function Decode(src: seq<byte>): Option<seq<byte>> {
    if src == [] then None else DecodeBlocks(src)
  }

  /** Decoding into a buffer of `max` bytes. */
  function DecodeBounded(src: seq<byte>, max: nat): Option<seq<byte>> {
    match Decode(src)
    case Some(d) => if |d| <= max then Some(d) else None
    case None => None
  }

  // ----- what the codec promises ------------------------------------------------

  /** Decoding consumes a leading block and restores the zero it stood for. */
  lemma DecodeBlock(head: seq<byte>, rest: seq<byte>, tail: seq<byte>)
    requires |head| <= 254 && rest != [] && DecodeBlocks(rest) == Some(tail)
    ensures DecodeBlocks([|head| + 1] + head + rest) ==
            Some(head + (if |head| == 254 then [] else [0]) + tail)
  {
    var e := [|head| + 1] + head + rest;
    Cut([|head| + 1], head, rest);
  }

  lemma DecodeLast(block: seq<byte>)
    requires |block| <= 253
    ensures DecodeBlocks([|block| + 1] + block) == Some(block)
  {
    var e := [|block| + 1] + block;
    var none: seq<byte> := [];
    assert e == [|block| + 1] + block + none;
    Cut([|block| + 1], block, none);
    assert DecodeBlocks(none) == Some([]);
    assert FirstBlock(e) + [] == block;
  }

  /** A closed block in the encoding, and the message bytes it stands for. */
  lemma CloseBlock(block: seq<byte>, data: seq<byte>)
    requires |block| <= 253 && data != [] && (data[0] == 0 || |block| == 253)
    ensures var head := if data[0] == 0 then block else block + [data[0]];
            && EncodeFrom(block, data) == [|head| + 1] + head + EncodeFrom([], data[1..])
            && head + (if |head| == 254 then [] else [0]) + data[1..] == block + data
  {
    var rest := EncodeFrom([], data[1..]);
    if data[0] == 0 {
      assert block + [0] + data[1..] == block + data;
    } else {
      var head := block + [data[0]];
      assert [255] + block + [data[0]] == [255] + head;
      assert head + [] + data[1..] == block + data;
    }
  }

  /** Decoding undoes encoding, for every message. */
  lemma {:induction false} DecodeEncodeFrom(block: seq<byte>, data: seq<byte>)
    requires |block| <= 253
    ensures |EncodeFrom(block, data)| > |block|
    ensures DecodeBlocks(EncodeFrom(block, data)) == Some(block + data)
    decreases |data|
  {
    if data == [] {
      DecodeLast(block);
      assert block + data == block;
    } else if data[0] == 0 || |block| == 253 {
      DecodeEncodeFrom([], data[1..]);
      assert [] + data[1..] == data[1..];
      CloseBlock(block, data);
      var head := if data[0] == 0 then block else block + [data[0]];
      DecodeBlock(head, EncodeFrom([], data[1..]), data[1..]);
    } else {
      DecodeEncodeFrom(block + [data[0]], data[1..]);
      assert block + data == block + [data[0]] + data[1..];
    }
  }

  lemma DecodeEncode(data: seq<byte>)
    ensures Decode(Encode(data)) == Some(data)
  {
    DecodeEncodeFrom([], data);
    assert [] + data == data;
  }

  /** The delimiter never occurs inside an encoded message. */
  lemma {:induction false} EncodeFromHasNoZero(block: seq<byte>, data: seq<byte>)
    requires |block| <= 253 && 0 !in block
    ensures 0 !in EncodeFrom(block, data)
    decreases |data|
  {
    if data == [] {
    } else if data[0] == 0 || |block| == 253 {
      EncodeFromHasNoZero([], data[1..]);
    } else {
      EncodeFromHasNoZero(block + [data[0]], data[1..]);
    }
  }

  /** One code byte per started block, where a full block holds 254 bytes. */
  lemma {:induction false} EncodeFromLength(block: seq<byte>, data: seq<byte>)
    requires |block| <= 253
    ensures |block| + |data| + 1 <= |EncodeFrom(block, data)|
    ensures |EncodeFrom(block, data)| <= |block| + |data| + 1 + (|block| + |data|) / 254
    decreases |data|
  {
    if data == [] {
    } else if data[0] == 0 || |block| == 253 {
      EncodeFromLength([], data[1..]);
    } else {
      EncodeFromLength(block + [data[0]], data[1..]);
    }
  }

  /** An encoded message is non-empty, zero-free, and at most one byte in 254 longer. */
  lemma EncodeShape(data: seq<byte>)
    ensures 0 !in Encode(data)
    ensures |data| + 1 <= |Encode(data)| <= |data| + 1 + |data| / 254
  {
    EncodeFromHasNoZero([], data);
    EncodeFromLength([], data);
  }

  /** Whatever decodes to n bytes was itself at most n + 1 + n/254 bytes long. */
  lemma {:induction false} DecodedFromLength(src: seq<byte>)
    requires DecodeBlocks(src).Some?
    ensures |DecodeBlocks(src).value| <= |src|
    ensures |src| <= |DecodeBlocks(src).value| + 1 + |DecodeBlocks(src).value| / 254
    ensures src != [] ==> |DecodeBlocks(src).value| < |src|
    decreases |src|
  {
    if src != [] {
      DecodedFromLength(src[src[0]..]);
    }
  }

  // ----- exactly how far decoding is from injective ---------------------------------

  /** The last block is full: code 255 and 254 bytes, with no empty block behind it. */
  predicate EndsFull(src: seq<byte>)
    requires DecodeBlocks(src).Some?
    decreases |src|
  {
    src != [] && if src[0] == |src| then src[0] == 255 else EndsFull(src[src[0]..])
  }

  /** A zero-free run that fills no block is simply collected. */
  lemma {:induction false} CollectRun(block: seq<byte>, run: seq<byte>, data: seq<byte>)
    requires |block| + |run| <= 253 && 0 !in run
    ensures EncodeFrom(block, run + data) == EncodeFrom(block + run, data)
    decreases |run|
  {
    if run == [] {
      assert run + data == data && block + run == block;
    } else {
      assert (run + data)[1..] == run[1..] + data;
      CollectRun(block + [run[0]], run[1..], data);
      assert block + [run[0]] + run[1..] == block + run;
    }
  }

  /** Encoding a zero-free run behind which a block is closed, by its zero or because it is full. */
  lemma EncodeRun(run: seq<byte>, data: seq<byte>)
    requires |run| <= 254 && 0 !in run
    ensures Encode(run + (if |run| == 254 then [] else [0]) + data) == [|run| + 1] + run + Encode(data)
  {
    if |run| == 254 {
      var block, last := run[..253], run[253];
      CollectFrom(block, [last] + data);
      assert run + [] + data == block + ([last] + data) && ([last] + data)[1..] == data;
      CloseBlock(block, [last] + data);
      assert block + [last] == run;
    } else {
      CollectFrom(run, [0] + data);
      assert run + [0] + data == run + ([0] + data) && ([0] + data)[1..] == data;
      CloseBlock(run, [0] + data);
    }
  }

  lemma CollectFrom(run: seq<byte>, data: seq<byte>)
    requires |run| <= 253 && 0 !in run
    ensures Encode(run + data) == EncodeFrom(run, data)
  {
    CollectRun([], run, data);
    assert [] + run == run;
  }

  /**
   * Encoding undoes decoding of a zero-free packet, which is all a delimited stream holds, but for
   * one thing: a full last block gets an empty one behind it.
   */
  lemma {:induction false} EncodeDecode(src: seq<byte>)
    requires src != [] && 0 !in src && DecodeBlocks(src).Some?
    ensures Encode(DecodeBlocks(src).value) == if EndsFull(src) then src + [1] else src
    decreases |src|
  {
    var c := src[0];
    var run, rest := src[1..c], src[c..];
    assert src == [c] + run + rest;
    if rest != [] {
      EncodeDecode(rest);
      EncodeRun(run, DecodeBlocks(rest).value);
      assert [c] + run + (rest + [1]) == src + [1];
    } else if c == 255 {
      EncodeRun(run, []);
      assert run + [] + [] == DecodeBlocks(src).value;
    } else {
      CollectFrom(run, []);
      assert run + [] == run && DecodeBlocks(src).value == run;
    }
  }

  /** Two zero-free packets decode alike only if they are the same but for the optional empty block. */
  lemma DecodeAlike(a: seq<byte>, b: seq<byte>)
    requires a != [] && 0 !in a && Decode(a).Some? && b != [] && 0 !in b && Decode(b).Some?
    ensures Decode(a) == Decode(b) <==>
            a == b || (EndsFull(a) && b == a + [1]) || (EndsFull(b) && a == b + [1])
  {
    EncodeDecode(a);
    EncodeDecode(b);
    var da, db := DecodeBlocks(a).value, DecodeBlocks(b).value;
    hide DecodeBlocks, Encode, EndsFull;
    DecodeEncode(da);
    DecodeEncode(db);
    if da == db && EndsFull(a) && EndsFull(b) {
      assert a == (a + [1])[..|a|] == (b + [1])[..|b|] == b;
    } else if EndsFull(a) && b == a + [1] {
      assert Decode(b) == Decode(Encode(da)) == Some(da);
    } else if EndsFull(b) && a == b + [1] {
      assert Decode(a) == Decode(Encode(db)) == Some(db);
    }
  }

  /** The smallest such pair: 254 bytes without a zero, with and without an empty block behind them. */
  lemma FullBlockTwoWays(run: seq<byte>)
    requires |run| == 254 && 0 !in run
    ensures Decode([255] + run) == Some(run) && Decode([255] + run + [1]) == Some(run)
  {
    var src: seq<byte> := [255] + run;
    assert DecodeBlocks(src) == Some(run) by {
      assert src[1..255] == run && src[255..] == [];
      assert FirstBlock(src) + [] == run;
    }
    EncodeDecode(src);
    DecodeEncode(run);
  }

  // ----- the firmware's codec, in place on fixed buffers -------------------------

  /** The three ways one input byte moves the encoder: close a block early, close a full one, extend it. */
  function Advance(done: seq<byte>, block: seq<byte>, b: byte): (seq<byte>, seq<byte>)
    requires |block| <= 253
  {
    if b == 0 then (done + [|block| + 1] + block, [])
    else if |block| == 253 then (done + [255] + (block + [b]), [])
    else (done, block + [b])
  }

  lemma AdvanceEncodes(done: seq<byte>, block: seq<byte>, data: seq<byte>, all: seq<byte>)
    requires |block| <= 253 && data != [] && done + EncodeFrom(block, data) == all
    ensures var (done', block') := Advance(done, block, data[0]);
            |block'| <= 253 && done' + EncodeFrom(block', data[1..]) == all
  {
    if data[0] == 0 || |block| == 253 {
      CloseBlock(block, data);
      var head := if data[0] == 0 then block else block + [data[0]];
      Regroup(done, [|head| + 1], head, EncodeFrom([], data[1..]));
    }
  }

  /** How much room the rest of the encoding takes at least. */
  lemma RoomNeeded(done: seq<byte>, block: seq<byte>, data: seq<byte>, all: seq<byte>)
    requires |block| <= 253 && data != [] && done + EncodeFrom(block, data) == all
    ensures |all| > |done| + 1 + |block|
    ensures data[0] != 0 && |block| == 253 ==> |all| > |done| + 2 + |block|
  {
    EncodeFromLength(block, data);
    EncodeFromLength([], data[1..]);
  }

  /** dst[code_idx] = code, once the block behind it is complete. */
  method Patch(dst: array<byte>, codeIdx: nat, code: byte, ghost done: seq<byte>, ghost block: seq<byte>)
    requires codeIdx == |done| && codeIdx + 1 + |block| <= dst.Length
    requires dst[..codeIdx] == done && dst[codeIdx + 1..codeIdx + 1 + |block|] == block
    modifies dst
    ensures dst[..codeIdx + 1 + |block|] == done + [code] + block
  {
    dst[codeIdx] := code;
    var di := codeIdx + 1 + |block|;
    assert dst[..di] == dst[..codeIdx] + [dst[codeIdx]] + dst[codeIdx + 1..di];
  }

  lemma Regroup(a: seq<byte>, b: seq<byte>, c: seq<byte>, d: seq<byte>)
    ensures a + (b + c + d) == a + b + c + d
  {
  }

  /** The encoder's position: everything before codeIdx is final, `block` is collected behind it. */
  ghost predicate Encoding(dst: array<byte>, codeIdx: int, di: int, code: int, done: seq<byte>, block: seq<byte>)
    reads dst
  {
    && codeIdx == |done| && di == codeIdx + code <= dst.Length
    && |block| <= 253 && code == |block| + 1
    && dst[..codeIdx] == done && dst[codeIdx + 1..di] == block
  }

  /** One turn of the encoding loop; not ok when the next byte does not fit. */
  method EncodeByte(b: byte, dst: array<byte>, codeIdx0: int, di0: int, code0: int,
                    ghost done0: seq<byte>, ghost block0: seq<byte>)
    returns (ok: bool, codeIdx: int, di: int, code: int, ghost done: seq<byte>, ghost block: seq<byte>)
    requires Encoding(dst, codeIdx0, di0, code0, done0, block0)
    modifies dst
    ensures ok ==> Encoding(dst, codeIdx, di, code, done, block)
    ensures ok ==> (done, block) == Advance(done0, block0, b)
    ensures !ok ==> di0 == dst.Length || (di0 + 1 == dst.Length && b != 0 && |block0| == 253)
  {
    ok, codeIdx, di, code, done, block := true, codeIdx0, di0, code0, done0, block0;
    if b == 0 {
      Patch(dst, codeIdx, code, done, block);
      done, block := done + [code] + block, [];
      code := 1;
      codeIdx := di;
      di := di + 1;
      if di > dst.Length {
        ok := false;
      }
    } else {
      block := block + [b];
      if di >= dst.Length {
        ok := false;
        return;
      }
      dst[di] := b;
      di := di + 1;
      code := code + 1;
      assert dst[..codeIdx] == done && dst[codeIdx + 1..di] == block;
      if code == 0xFF {
        Patch(dst, codeIdx, code, done, block);
        done, block := done + [code] + block, [];
        code := 1;
        codeIdx := di;
        di := di + 1;
        if di > dst.Length {
          ok := false;
        }
      }
    }
  }

  /**
   * cobs_encode: fails exactly when the buffer has no two spare bytes or the encoding does
   * not fit; the code bytes are patched in behind the scan.
   */
  method CobsEncode(src: seq<byte>, dst: array<byte>) returns (len: int)
    modifies dst
    ensures len == -1 || 0 <= len <= dst.Length
    ensures len == -1 <==> |src| + 2 > dst.Length || |Encode(src)| > dst.Length
    ensures len != -1 ==> dst[..len] == Encode(src)
  {
    if |src| + 2 > dst.Length {
      return -1;
    }
    var codeIdx, di := 0, 1;
    var code := 1;
    ghost var done: seq<byte>, block: seq<byte> := [], [];
    assert src[0..] == src && done + Encode(src) == Encode(src);
    for si := 0 to |src|
      invariant Encoding(dst, codeIdx, di, code, done, block)
      invariant done + EncodeFrom(block, src[si..]) == Encode(src)
    {
      assert src[si..][1..] == src[si + 1..];
      AdvanceEncodes(done, block, src[si..], Encode(src));
      RoomNeeded(done, block, src[si..], Encode(src));
      var ok;
      ok, codeIdx, di, code, done, block := EncodeByte(src[si], dst, codeIdx, di, code, done, block);
      if !ok {
        return -1;
      }
    }
    Patch(dst, codeIdx, code, done, block);
    assert done + [code] + block == done + ([code] + block);
    return di;
  }

  /** The inner copy loop. */
  method CopyRun(src: seq<byte>, si: nat, dst: array<byte>, di: nat, copy: nat)
    requires si + copy <= |src| && di + copy <= dst.Length
    modifies dst
    ensures dst[..di + copy] == old(dst[..di]) + src[si..si + copy]
  {
    for i := 0 to copy
      invariant dst[..di] == old(dst[..di]) && dst[di..di + i] == src[si..si + i]
    {
      dst[di + i] := src[si + i];
    }
    assert dst[..di + copy] == dst[..di] + dst[di..di + copy];
  }

  /** cobs_decode: bounded by the destination, with -1 for every malformed input. */
  method CobsDecode(src: seq<byte>, dst: array<byte>) returns (len: int)
    modifies dst
    ensures len == -1 || 0 <= len <= dst.Length
    ensures len == -1 <==> DecodeBounded(src, dst.Length).None?
    ensures len != -1 ==> DecodeBounded(src, dst.Length) == Some(dst[..len])
  {
    if |src| == 0 {
      return -1;
    }
    var si, di := 0, 0;
    PrependNothing(src, dst[..0]);
    while si < |src|
      invariant 0 <= si <= |src| && 0 <= di <= dst.Length
      invariant Decode(src) == Prepend(dst[..di], DecodeBlocks(src[si..]))
    {
      ghost var rest := src[si..];
      var code := src[si];
      si := si + 1;
      if code == 0 {
        return -1;
      }
      var copy := code - 1;
      if si + copy > |src| {
        return -1;
      }
      ghost var stuffed := FirstBlock(rest);
      if di + copy > dst.Length {
        return -1;
      }
      ghost var done := dst[..di];
      assert rest[1..code] == src[si..si + copy];
      CopyRun(src, si, dst, di, copy);
      si, di := si + copy, di + copy;
      assert dst[..di] == done + rest[1..code];
      if code != 0xFF && si < |src| {
        if di >= dst.Length {
          return -1;
        }
        dst[di] := 0;
        di := di + 1;
      }
      assert dst[..di] == done + stuffed;
      assert rest[code..] == src[si..];
      PrependTwice(done, stuffed, DecodeBlocks(src[si..]));
    }
    assert dst[..di] + [] == dst[..di];
    return di;
  }

  lemma PrependNothing(src: seq<byte>, p: seq<byte>)
    requires p == [] && src != []
    ensures Decode(src) == Prepend(p, DecodeBlocks(src[0..]))
  {
    assert src[0..] == src;
    if DecodeBlocks(src).Some? {
      assert p + DecodeBlocks(src).value == DecodeBlocks(src).value;
    }
  }

  /** The block that begins at offset i. */
  lemma BlockAt(data: seq<byte>, i: nat)
    requires i < |data| && 0 < data[i] <= |data| - i
    ensures var next := i + data[i];
            && data[i..][data[i]..] == data[next..]
            && FirstBlock(data[i..]) == data[i + 1..next] + (if data[i] != 255 && next < |data| then [0] else [])
  {
  }

  lemma PrependTwice(p: seq<byte>, q: seq<byte>, r: Option<seq<byte>>)
    ensures Prepend(p, Prepend(q, r)) == Prepend(p + q, r)
  {
    if r.Some? {
      assert p + (q + r.value) == p + q + r.value;
    }
  }

  // ----- the Go side's codec, on slices that grow ---------------------------------

  /** ipcCOBSEncode / COBSEncode. */
  method GoEncode(data: seq<byte>) returns (out: seq<byte>)
    ensures out == Encode(data)
  {
    out := [0];
    var codeIdx := 0;
    var code := 1;
    ghost var done: seq<byte>, block: seq<byte> := [], [];
    assert data[0..] == data && done + Encode(data) == Encode(data);
    for i := 0 to |data|
      invariant codeIdx == |done| && |block| <= 253 && code == |block| + 1
      invariant out == done + [0] + block
      invariant done + EncodeFrom(block, data[i..]) == Encode(data)
    {
      assert data[i..][1..] == data[i + 1..];
      AdvanceEncodes(done, block, data[i..], Encode(data));
      if data[i] == 0 {
        out := out[codeIdx := code];
        done, block := done + [code] + block, [];
        assert out == done;
        code := 1;
        codeIdx := |out|;
        out := out + [0];
      } else {
        out := out + [data[i]];
        code := code + 1;
        block := block + [data[i]];
        assert out == done + [0] + block;
        if code == 0xFF {
          out := out[codeIdx := code];
          done, block := done + [code] + block, [];
          assert out == done;
          code := 1;
          codeIdx := |out|;
          out := out + [0];
        }
      }
    }
    out := out[codeIdx := code];
    assert out == done + ([code] + block);
  }

  /** ipcCOBSDecode / COBSDecode; None for the error return. */
  method GoDecode(data: seq<byte>) returns (r: Option<seq<byte>>)
    ensures r == Decode(data)
  {
    if |data| == 0 {
      return None;
    }
    var out: seq<byte> := [];
    var i := 0;
    PrependNothing(data, out);
    while i < |data|
      invariant 0 <= i <= |data|
      invariant Decode(data) == Prepend(out, DecodeBlocks(data[i..]))
    {
      ghost var done, rest := out, data[i..];
      var code := data[i];
      if code == 0 {
        return None;
      }
      var cp := code - 1;
      i := i + 1;
      if i + cp > |data| {
        return None;
      }
      out := out + data[i..i + cp];
      i := i + cp;
      if code != 0xFF && i < |data| {
        out := out + [0];
      }
      ghost var stuffed := FirstBlock(rest);
      BlockAt(data, i - code);
      assert out == done + stuffed;
      PrependTwice(done, stuffed, DecodeBlocks(data[i..]));
    }
    r := Some(out);
    assert out + [] == out;
  }
}
