/** Encoding and decoding whole databases: the two classes composed. */
module FrcodeStream {
  import opened Wrappers
  import opened Bytes
  import opened FrcodeFormat
  import opened FrcodeBlocks
  import opened FrcodeRoundTrip
  import opened FrcodeEncoder
  import opened FrcodeDecoder

  function Concat(blocks: seq<Bytes>): Bytes {
    if blocks == [] then [] else Concat(blocks[..|blocks| - 1]) + blocks[|blocks| - 1]
  }

  /** A non-empty block that ends where a line ends. */
  predicate WholeLines(block: Bytes) {
    block != [] && block[|block| - 1] == NEWLINE
  }

  lemma StartBetween(input: Bytes, goal: Bytes)
    requires RegularStream(input) && Expand(Whole(input)) == Ok(goal)
    ensures Between(Whole(input), 0, goal)
  {
  }

  /** A block ends behind a newline of the text. */
  lemma BlockEndsLine(s: Stream, from: nat, to: nat, goal: Bytes)
    requires Between(s, to, goal) && from < to <= |goal|
    ensures WholeLines(goal[from..to])
  {
    EmittedOf(s, to, goal);
    if Fresh(s) {
      ExpandExtends(s);
    } else {
      FutureExtends(s, goal);
    }
    assert goal[to - 1] == s.text[to - 1];
  }

  lemma BlockIsLines(decoder: Decoder, from: nat, goal: Bytes)
    requires decoder.On(goal) && from < decoder.Emitted() <= |goal|
    ensures WholeLines(goal[from..decoder.Emitted()])
  {
    BlockEndsLine(decoder.View(), from, decoder.Emitted(), goal);
  }

  /**
   * Decoding a regular stream block by block until an empty block comes: the blocks are whole lines,
   * and together they are what the stream stands for, whatever the capacity the buffer starts with.
   */
  method DecodeAll(input: Bytes, capacity: nat, ghost goal: Bytes) returns (blocks: seq<Bytes>)
    requires RegularStream(input) && Expand(Whole(input)) == Ok(goal)
    ensures Concat(blocks) == goal
    ensures forall b | b in blocks :: WholeLines(b)
  {
    hide Between, RegularStream, Expand, WholeLines, Decoder.Valid;
    StartBetween(input, goal);
    var decoder := new Decoder(input, capacity);
    blocks := [];
    var done := false;
    while !done
      invariant fresh(decoder) && fresh(decoder.buf) && fresh(decoder.buf.data)
      invariant decoder.On(goal) && decoder.Emitted() <= |goal|
      invariant Concat(blocks) == goal[..decoder.Emitted()]
      invariant done ==> decoder.Emitted() == |goal|
      invariant forall b | b in blocks :: WholeLines(b)
      decreases !done, |goal| - decoder.Emitted()
    {
      ghost var before := decoder.Emitted();
      var block := decoder.Decode(Some(goal));
      if block.value == [] {
        done := true;
      } else {
        BlockIsLines(decoder, before, goal);
        assert (blocks + [block.value])[..|blocks|] == blocks;
        blocks := blocks + [block.value];
      }
    }
  }

  /** Encode every package behind the ones before it, as the database writer does. */
  method EncodeAll(packages: seq<Package>) returns (r: Result<Bytes, Error>)
    ensures r == if forall p | p in packages :: CleanPackage(p) then Ok(PrintedAll(packages)) else Err(ForbiddenByte)
  {
    hide CleanPackage, PrintedPackage;
    var raw: Bytes := [];
    assert packages[0..] == packages;
    for i := 0 to |packages|
      invariant forall p | p in packages[..i] :: CleanPackage(p)
      invariant raw + PrintedAll(packages[i..]) == PrintedAll(packages)
    {
      assert packages[i] in packages && packages[i..][1..] == packages[i + 1..];
      assert packages[..i + 1] == packages[..i] + [packages[i]];
      var encoded := EncodePackage(packages[i]);
      if encoded.Err? {
        return Err(encoded.error);
      }
      Assoc(raw, encoded.value, PrintedAll(packages[i + 1..]));
      raw := raw + encoded.value;
    }
    assert packages[..|packages|] == packages && packages[|packages|..] == [];
    assert raw + [] == raw;
    return Ok(raw);
  }

  /**
   * The round trip through both classes: for any packages without forbidden bytes, any starting
   * capacity, and any path lengths, decoding the encoded stream yields every line in order.
   */
  method EncodeThenDecode(packages: seq<Package>, capacity: nat) returns (r: Result<seq<Bytes>, Error>)
    ensures r.Ok? <==> forall p | p in packages :: CleanPackage(p)
    ensures r.Ok? ==> Concat(r.value) == AllLines(packages) && forall b | b in r.value :: WholeLines(b)
  {
    var encoded := EncodeAll(packages);
    if encoded.Err? {
      return Err(encoded.error);
    }
    PrintedStandsForLines(packages);
    var blocks := DecodeAll(encoded.value, capacity, AllLines(packages));
    return Ok(blocks);
  }
}
