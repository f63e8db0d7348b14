/** System info strings: how bmc-device writes them (sections 22.14a of IPMI
    v2.0), how bmc-info reads them back (22.14b), and that the one undoes the
    other. */
module SystemInfo {
  import opened Common

  const FIRST_SET_MAX: nat := 14
  const SET_MAX: nat := 16
  const STRING_MAX: nat := 255
  const BUFFER_MAX: nat := 512
  const SELECTOR_LIMIT: nat := 17

  const NUL: byte := 0

  predicate NulFree(s: seq<byte>) {
    NUL !in s
  }

  /** What `%s` prints: everything before the first NUL. */
  function CString(s: seq<byte>): (r: seq<byte>)
    ensures |r| <= |s| && NulFree(r)
    ensures r == s[..|r|] && (|r| < |s| ==> s[|r|] == NUL)
  {
    if s == [] || s[0] == NUL then [] else [s[0]] + CString(s[1..])
  }

  lemma {:induction false} CStringOfPadded(s: seq<byte>, tail: seq<byte>)
    requires NulFree(s) && (tail != [] ==> tail[0] == NUL)
    ensures CString(s + tail) == s
  {
    if s == [] {
      assert s + tail == tail;
    } else {
      assert (s + tail)[1..] == s[1..] + tail;
      CStringOfPadded(s[1..], tail);
    }
  }

  // ----- How a string is cut into blocks -----

  /** Where block k starts; block 0 is two bytes shorter than the others. */
  function Offset(k: nat): nat {
    if k == 0 then 0 else FIRST_SET_MAX + (k - 1) * SET_MAX
  }

  function Min(a: nat, b: nat): nat {
    if a < b then a else b
  }

  function Block(s: seq<byte>, k: nat): seq<byte> {
    s[Min(Offset(k), |s|)..Min(Offset(k + 1), |s|)]
  }

  /** A string always has block 0, and block k when it reaches beyond its start. */
  function BlockCount(s: seq<byte>): nat {
    if |s| <= FIRST_SET_MAX then 1 else 1 + (|s| - FIRST_SET_MAX + SET_MAX - 1) / SET_MAX
  }

  function Concat(blocks: seq<seq<byte>>): seq<byte> {
    if blocks == [] then [] else Concat(blocks[..|blocks| - 1]) + blocks[|blocks| - 1]
  }

  function Blocks(s: seq<byte>, n: nat): (b: seq<seq<byte>>)
    ensures |b| == n && forall k :: 0 <= k < n ==> b[k] == Block(s, k)
  {
    seq(n, k requires k >= 0 => Block(s, k))
  }

  lemma {:induction false} BlocksConcat(s: seq<byte>, n: nat)
    ensures Concat(Blocks(s, n)) == s[..Min(Offset(n), |s|)]
  {
    if n != 0 {
      BlocksConcat(s, n - 1);
      assert Blocks(s, n)[..n - 1] == Blocks(s, n - 1);
    }
  }

  /** The blocks of a string make up the string, all but the last are full, and
      a string that `set_system_info_common` accepts has at most 17 of them, so
      that the guard on the selector never cuts it short. */
  lemma BlocksMakeString(s: seq<byte>)
    requires |s| <= STRING_MAX
    ensures Concat(Blocks(s, BlockCount(s))) == s
    ensures forall k :: 0 <= k < BlockCount(s) - 1 ==> |Block(s, k)| == if k == 0 then FIRST_SET_MAX else SET_MAX
    ensures BlockCount(s) <= SELECTOR_LIMIT
    ensures BlockCount(s) > 1 ==> Block(s, BlockCount(s) - 1) != []
  {
    BlocksConcat(s, BlockCount(s));
  }

  /** One turn of a loop over the blocks: `count` characters are done. */
  lemma NextBlock(s: seq<byte>, k: nat, count: nat, len: nat)
    requires count == Min(Offset(k), |s|) && (k == 0 || count < |s|)
    requires len == Min(if k == 0 then FIRST_SET_MAX else SET_MAX, |s| - count)
    ensures s[count..count + len] == Block(s, k) && count + len == Min(Offset(k + 1), |s|)
    ensures k + 1 <= BlockCount(s)
    ensures count + len == |s| ==> k + 1 == BlockCount(s)
  {
  }

  /** The stored blocks after the first `n` of `s` were put in place. */
  function Stored(blocks: map<nat, seq<byte>>, s: seq<byte>, n: nat): map<nat, seq<byte>> {
    if n == 0 then blocks else Stored(blocks, s, n - 1)[n - 1 := Block(s, n - 1)]
  }

  /** The first `n` blocks of `s` are in place. */
  predicate Holds(blocks: map<nat, seq<byte>>, s: seq<byte>, n: nat) {
    forall k :: 0 <= k < n ==> k in blocks && blocks[k] == Block(s, k)
  }

  lemma {:induction false} StoredHolds(blocks: map<nat, seq<byte>>, s: seq<byte>, n: nat)
    ensures Holds(Stored(blocks, s, n), s, n)
    ensures forall k :: k >= n ==> (k in Stored(blocks, s, n) <==> k in blocks)
    ensures forall k :: k >= n && k in blocks ==> Stored(blocks, s, n)[k] == blocks[k]
  {
    if n != 0 {
      StoredHolds(blocks, s, n - 1);
    }
  }

  // ----- The BMC -----

  /** How a BMC hands a stored block back: as stored, or filled up with zeros
      to the size of the field. */
  datatype Padding = Exact | ZeroPadded

  function Padded(block: seq<byte>, size: nat, p: Padding): seq<byte> {
    if p.ZeroPadded? && |block| < size then block + Zeros(size - |block|) else block
  }

  /** One system info string parameter.  Blocks of an earlier, longer string
      stay behind a shorter one. */
  class Parameter {
    var length: nat
    var blocks: map<nat, seq<byte>>

    constructor ()
    {
      length, blocks := 0, map[];
    }

    method SetFirst(ok: bool, stringLength: nat, block: seq<byte>)
      modifies this
      ensures length == if ok then stringLength else old(length)
      ensures blocks == if ok then old(blocks)[0 := block] else old(blocks)
    {
      if ok {
        length, blocks := stringLength, blocks[0 := block];
      }
    }

    method Set(ok: bool, selector: nat, block: seq<byte>)
      modifies `blocks
      ensures blocks == if ok then old(blocks)[selector := block] else old(blocks)
    {
      if ok {
        blocks := blocks[selector := block];
      }
    }

    predicate HoldsString(s: seq<byte>)
      reads this
    {
      length == |s| && Holds(blocks, s, BlockCount(s))
    }
  }

  // ----- Writing: set_system_info_common -----

  /** `answers` says which commands succeed; a missing answer is a failure. */
  predicate Answered(answers: seq<bool>, k: nat) {
    k < |answers| && answers[k]
  }

  /** One command: cuts the next block, at most `max` long, and sends it. */
  method SendBlock(p: Parameter, s: seq<byte>, setSelector: nat, stringCount: nat, ok: bool)
    returns (block: seq<byte>)
    requires stringCount == Min(Offset(setSelector), |s|) && (setSelector == 0 || stringCount < |s|)
    modifies p
    ensures block == Block(s, setSelector) && stringCount + |block| == Min(Offset(setSelector + 1), |s|)
    ensures setSelector + 1 <= BlockCount(s) && (stringCount + |block| == |s| ==> setSelector + 1 == BlockCount(s))
    ensures p.length == if ok && setSelector == 0 then |s| else old(p.length)
    ensures p.blocks == if ok then old(p.blocks)[setSelector := Block(s, setSelector)] else old(p.blocks)
  {
    var max := if setSelector == 0 then FIRST_SET_MAX else SET_MAX;
    var blockLength := if |s| - stringCount > max then max else |s| - stringCount;
    NextBlock(s, setSelector, stringCount, blockLength);
    block := s[stringCount..stringCount + blockLength];
    if setSelector == 0 {
      p.SetFirst(ok, |s|, block);
    } else {
      p.Set(ok, setSelector, block);
    }
  }

  predicate AllAnswered(answers: seq<bool>, n: nat) {
    forall k :: 0 <= k < n ==> Answered(answers, k)
  }

  /** `sent` lists the blocks in the order of the commands; the selector of a
      command is its place in the list. */
  method WriteString(p: Parameter, s: seq<byte>, answers: seq<bool>) returns (ok: bool, sent: seq<seq<byte>>)
    requires |s| <= STRING_MAX
    modifies p
    // The blocks are those of the string, in order, without a gap.
    ensures 1 <= |sent| <= BlockCount(s) && sent == Blocks(s, |sent|)
    // It goes on to the end unless a command fails, and stops at that one.
    ensures AllAnswered(answers, |sent| - 1)
    ensures ok <==> Answered(answers, |sent| - 1)
    ensures ok ==> |sent| == BlockCount(s) && p.HoldsString(s)
    // The blocks accepted are stored, every other block is as it was.
    ensures p.blocks == Stored(old(p.blocks), s, if ok then |sent| else |sent| - 1)
  {
    var stringCount: nat, setSelector: nat := 0, 0;
    var block := SendBlock(p, s, setSelector, stringCount, Answered(answers, 0));
    sent := [block];
    if !Answered(answers, 0) {
      return false, sent;
    }
    stringCount := stringCount + |block|;
    setSelector := setSelector + 1;
    while stringCount < |s| && setSelector < SELECTOR_LIMIT
      invariant 1 <= setSelector == |sent| <= BlockCount(s)
      invariant stringCount == Min(Offset(setSelector), |s|) && (stringCount == |s| ==> setSelector == BlockCount(s))
      invariant sent == Blocks(s, setSelector) && AllAnswered(answers, setSelector)
      invariant p.length == |s| && p.blocks == Stored(old(p.blocks), s, setSelector)
      decreases SELECTOR_LIMIT - setSelector
    {
      block := SendBlock(p, s, setSelector, stringCount, Answered(answers, setSelector));
      sent := sent + [block];
      if !Answered(answers, setSelector) {
        return false, sent;
      }
      stringCount := stringCount + |block|;
      setSelector := setSelector + 1;
    }
    assert BlockCount(s) <= SELECTOR_LIMIT;
    StoredHolds(old(p.blocks), s, setSelector);
    ok := true;
  }

  // ----- Reading: display_system_info_common -----

  /** How the BMC answers one request, and how the display ends. */
  datatype Reply = Good | NotSupported | Bad
  datatype ReadResult = Printed(text: seq<byte>) | Unsupported | Error

  /** The last reply decides whether a text is printed, and if not, for what reason. */
  predicate EndsAs(last: Reply, r: ReadResult) {
    && (r.Printed? <==> last.Good?)
    && (r.Unsupported? <==> last.NotSupported?)
    && (r.Error? <==> last.Bad?)
  }

  function Failing(r: Reply): ReadResult
    requires !r.Good?
  {
    if r.NotSupported? then Unsupported else Error
  }

  predicate AllGood(replies: nat -> Reply, n: nat) {
    forall k :: 0 <= k < n ==> replies(k).Good?
  }

  /** `fiid_obj_get_data` into `buffer` at `at`: copies the data and zeroes the
      rest; a field that is not set leaves the buffer alone. */
  method GetData(buffer: array<byte>, at: nat, data: seq<byte>) returns (len: nat)
    requires at + |data| <= buffer.Length
    modifies buffer
    ensures len == |data|
    ensures data == [] ==> buffer[..] == old(buffer[..])
    ensures data != [] ==> buffer[..] == old(buffer[..at]) + data + Zeros(buffer.Length - at - |data|)
  {
    if data == [] {
      return 0;
    }
    len := |data|;
    var i := at;
    while i < buffer.Length
      invariant at <= i <= buffer.Length
      invariant buffer[..at] == old(buffer[..at])
      invariant forall k :: at <= k < i ==> buffer[k] == if k - at < |data| then data[k - at] else NUL
    {
      buffer[i] := if i - at < |data| then data[i - at] else NUL;
      i := i + 1;
    }
  }

  function BlockSize(k: nat): nat {
    if k == 0 then FIRST_SET_MAX else SET_MAX
  }

  /** The data of response k; a block never written comes back empty. */
  function Response(blocks: map<nat, seq<byte>>, k: nat, padding: nat -> Padding): (d: seq<byte>)
    ensures |d| <= BlockSize(k)
  {
    var block := if k in blocks && |blocks[k]| <= BlockSize(k) then blocks[k] else [];
    Padded(block, BlockSize(k), padding(k))
  }

  /** The data of the first `n` responses. */
  function Gathered(blocks: map<nat, seq<byte>>, padding: nat -> Padding, n: nat): (g: seq<byte>)
    ensures |g| <= Offset(n)
  {
    if n == 0 then [] else Gathered(blocks, padding, n - 1) + Response(blocks, n - 1, padding)
  }

  lemma FullBlock(s: seq<byte>, k: nat)
    requires k + 1 < BlockCount(s)
    ensures Offset(k + 1) < |s| && |Block(s, k)| == BlockSize(k) && s[..Offset(k + 1)] == s[..Offset(k)] + Block(s, k)
  {
    assert SET_MAX * (BlockCount(s) - 2) < |s| - FIRST_SET_MAX;
    assert k * SET_MAX <= SET_MAX * (BlockCount(s) - 2);
    assert Offset(k + 1) == Offset(k) + BlockSize(k);
  }

  lemma LastBlock(s: seq<byte>)
    ensures var k := BlockCount(s) - 1;
            && Min(Offset(k), |s|) == (if k == 0 then 0 else Offset(k))
            && |Block(s, k)| <= BlockSize(k) && s == s[..Min(Offset(k), |s|)] + Block(s, k)
  {
    var k := BlockCount(s) - 1;
    if 0 < k {
      FullBlock(s, k - 1);
    }
    assert |s| <= Offset(k + 1);
  }

  lemma ResponseIs(blocks: map<nat, seq<byte>>, padding: nat -> Padding, s: seq<byte>, k: nat)
    requires Holds(blocks, s, k + 1) && |Block(s, k)| <= BlockSize(k)
    ensures Response(blocks, k, padding) == Padded(Block(s, k), BlockSize(k), padding(k))
  {
  }

  /** Blocks that are followed by others are full, and so padding adds nothing. */
  lemma {:induction false} GatheredFull(blocks: map<nat, seq<byte>>, padding: nat -> Padding, s: seq<byte>, k: nat)
    requires Holds(blocks, s, BlockCount(s)) && k < BlockCount(s)
    ensures Offset(k) <= |s| && (0 < k ==> Offset(k) < |s|) && Gathered(blocks, padding, k) == s[..Offset(k)]
  {
    if k != 0 {
      GatheredFull(blocks, padding, s, k - 1);
      FullBlock(s, k - 1);
      ResponseIs(blocks, padding, s, k - 1);
    }
  }

  lemma PaddedIs(block: seq<byte>, size: nat, p: Padding)
    ensures exists z: nat :: Padded(block, size, p) == block + Zeros(z)
  {
    if p.Exact? || size <= |block| {
      assert Padded(block, size, p) == block + Zeros(0);
    } else {
      assert Padded(block, size, p) == block + Zeros(size - |block|);
    }
  }

  /** All blocks together show the string. */
  lemma GatheredString(blocks: map<nat, seq<byte>>, padding: nat -> Padding, s: seq<byte>)
    requires NulFree(s) && Holds(blocks, s, BlockCount(s))
    ensures var g := Gathered(blocks, padding, BlockCount(s)); |s| <= |g| && CString(g) == s
  {
    var k := BlockCount(s) - 1;
    GatheredFull(blocks, padding, s, k);
    LastBlock(s);
    ResponseIs(blocks, padding, s, k);
    PaddedIs(Block(s, k), BlockSize(k), padding(k));
    var z: nat :| Padded(Block(s, k), BlockSize(k), padding(k)) == Block(s, k) + Zeros(z);
    assert Gathered(blocks, padding, k + 1) == s[..Offset(k)] + (Block(s, k) + Zeros(z)) == s + Zeros(z);
    CStringOfPadded(s, Zeros(z));
  }

  lemma {:induction false} CStringStops(s: seq<byte>, zeros: seq<byte>)
    requires zeros != [] ==> zeros[0] == NUL
    ensures CString(s + zeros) == CString(s)
  {
    if s == [] {
      assert s + zeros == zeros;
    } else {
      assert (s + zeros)[1..] == s[1..] + zeros;
      CStringStops(s[1..], zeros);
    }
  }

  /** What was read, followed by zeros. */
  predicate Shows(buffer: seq<byte>, g: seq<byte>) {
    |g| <= |buffer| && buffer == g + Zeros(|buffer| - |g|)
  }

  lemma ShownText(buffer: seq<byte>, g: seq<byte>)
    requires Shows(buffer, g)
    ensures CString(buffer) == CString(g)
  {
    CStringStops(g, Zeros(|buffer| - |g|));
  }

  /** Copies the data of response k to the end of what was read. */
  method ReadBlock(blocks: map<nat, seq<byte>>, buffer: array<byte>, count: nat, k: nat, padding: nat -> Padding)
    returns (total: nat)
    requires count == |Gathered(blocks, padding, k)| && Offset(k + 1) <= buffer.Length
    requires Shows(buffer[..], Gathered(blocks, padding, k))
    modifies buffer
    ensures total == |Gathered(blocks, padding, k + 1)|
    ensures Shows(buffer[..], Gathered(blocks, padding, k + 1))
  {
    ghost var before, g := buffer[..], Gathered(blocks, padding, k);
    var data := Response(blocks, k, padding);
    var len := GetData(buffer, count, data);
    total := count + len;
    if data == [] {
      assert g + data == g;
    } else {
      assert before[..count] == g;
    }
  }

  /** Nothing was asked for in vain: what was read before fell short. */
  predicate FellShort(blocks: map<nat, seq<byte>>, length: nat, padding: nat -> Padding, n: nat) {
    forall k :: 0 < k < n ==> |Gathered(blocks, padding, k)| < length
  }

  /** The reader asks for block after block until it has as many bytes as the BMC
      announced, or seventeen blocks.  Whatever is stored, the text is what the
      responses hold up to the first NUL. */
  predicate TextRead(blocks: map<nat, seq<byte>>, length: nat, padding: nat -> Padding, n: nat, text: seq<byte>) {
    if length == 0 then text == [] && n == 1
    else
      && FellShort(blocks, length, padding, n)
      && (n == SELECTOR_LIMIT || length <= |Gathered(blocks, padding, n)|)
      && text == CString(Gathered(blocks, padding, n))
  }

  /** A string that the reader is promised to print. */
  predicate Promised(p: Parameter, s: seq<byte>)
    reads p
  {
    p.HoldsString(s) && |s| <= STRING_MAX && NulFree(s)
  }

  /** What the reader does with a stored NUL-free string. */
  lemma StringRead(blocks: map<nat, seq<byte>>, padding: nat -> Padding, s: seq<byte>, n: nat, text: seq<byte>)
    requires |s| <= STRING_MAX && NulFree(s) && Holds(blocks, s, BlockCount(s)) && 0 < n
    requires FellShort(blocks, |s|, padding, n)
    ensures n <= BlockCount(s)
    ensures TextRead(blocks, |s|, padding, n, text) ==> n == BlockCount(s) && text == s
  {
    GatheredString(blocks, padding, s);
    BlocksMakeString(s);
    if n < BlockCount(s) {
      GatheredFull(blocks, padding, s, n);
    }
  }

  lemma StillShort(blocks: map<nat, seq<byte>>, length: nat, padding: nat -> Padding, n: nat)
    requires FellShort(blocks, length, padding, n) && |Gathered(blocks, padding, n)| < length
    ensures FellShort(blocks, length, padding, n + 1)
  {
  }

  /** One turn of the read loop. */
  method ReadNext(blocks: map<nat, seq<byte>>, buffer: array<byte>, count: nat, k: nat, padding: nat -> Padding,
                  ghost length: nat) returns (total: nat)
    requires 0 < k < SELECTOR_LIMIT && buffer.Length == BUFFER_MAX && count < length
    requires count == |Gathered(blocks, padding, k)| && Shows(buffer[..], Gathered(blocks, padding, k))
    requires FellShort(blocks, length, padding, k)
    modifies buffer
    ensures total == |Gathered(blocks, padding, k + 1)| && Shows(buffer[..], Gathered(blocks, padding, k + 1))
    ensures FellShort(blocks, length, padding, k + 1)
  {
    StillShort(blocks, length, padding, k);
    total := ReadBlock(blocks, buffer, count, k, padding);
  }

  /** The loop: reads on behind the first block and says whether every request
      succeeded, and how many there were. */
  method ReadOn(blocks: map<nat, seq<byte>>, length: nat, padding: nat -> Padding, replies: nat -> Reply,
                buffer: array<byte>, first: nat) returns (good: bool, requests: nat)
    requires replies(0).Good? && buffer.Length == BUFFER_MAX
    requires first == |Gathered(blocks, padding, 1)| && Shows(buffer[..], Gathered(blocks, padding, 1))
    modifies buffer
    ensures 1 <= requests <= SELECTOR_LIMIT && AllGood(replies, requests - 1) && good == replies(requests - 1).Good?
    ensures FellShort(blocks, length, padding, requests)
    ensures good ==> Shows(buffer[..], Gathered(blocks, padding, requests))
    ensures good ==> requests == SELECTOR_LIMIT || length <= |Gathered(blocks, padding, requests)|
  {
    var stringCount, setSelector := first, 1;
    while stringCount < length && setSelector < SELECTOR_LIMIT
      invariant 1 <= setSelector <= SELECTOR_LIMIT
      invariant stringCount == |Gathered(blocks, padding, setSelector)|
      invariant Shows(buffer[..], Gathered(blocks, padding, setSelector))
      invariant FellShort(blocks, length, padding, setSelector) && AllGood(replies, setSelector)
      decreases SELECTOR_LIMIT - setSelector
    {
      if !replies(setSelector).Good? {
        StillShort(blocks, length, padding, setSelector);
        return false, setSelector + 1;
      }
      stringCount := ReadNext(blocks, buffer, stringCount, setSelector, padding, length);
      setSelector := setSelector + 1;
    }
    good, requests := true, setSelector;
  }

  /** The blocks after a first response that announced `length` bytes */
  method ReadBlocks(blocks: map<nat, seq<byte>>, length: nat, padding: nat -> Padding, replies: nat -> Reply)
    returns (r: ReadResult, requests: nat)
    requires length != 0 && replies(0).Good?
    ensures 1 <= requests <= SELECTOR_LIMIT && AllGood(replies, requests - 1)
    ensures FellShort(blocks, length, padding, requests)
    ensures EndsAs(replies(requests - 1), r)
    ensures r.Printed? ==> TextRead(blocks, length, padding, requests, r.text)
  {
    var buffer := new byte[BUFFER_MAX](_ => NUL);
    assert Shows(buffer[..], []);
    var first := ReadBlock(blocks, buffer, 0, 0, padding);
    var good;
    good, requests := ReadOn(blocks, length, padding, replies, buffer, first);
    if !good {
      return Failing(replies(requests - 1)), requests;
    }
    ShownText(buffer[..], Gathered(blocks, padding, requests));
    r := Printed(CString(buffer[..]));
  }

  /** `display_system_info_common`, on a BMC that answers request k as `replies`
      and pads block k as `padding` says: whatever mixture of exact and
      zero-padded blocks comes back, a NUL-free string `s` that is stored is the
      string printed. */
  method ReadString(p: Parameter, padding: nat -> Padding, replies: nat -> Reply, ghost s: seq<byte>)
    returns (r: ReadResult, requests: nat)
    ensures 1 <= requests <= SELECTOR_LIMIT
    // A request that fails ends the display, with the reason it failed for.
    ensures AllGood(replies, requests - 1)
    ensures EndsAs(replies(requests - 1), r)
    ensures r.Printed? ==> TextRead(p.blocks, p.length, padding, requests, r.text)
    ensures Promised(p, s) ==>
              && requests <= BlockCount(s)
              && (AllGood(replies, BlockCount(s)) ==> r == Printed(s) && requests == BlockCount(s))
  {
    if !replies(0).Good? {
      return Failing(replies(0)), 1;
    }
    if p.length == 0 {
      return Printed([]), 1;
    }
    r, requests := ReadBlocks(p.blocks, p.length, padding, replies);
    if Promised(p, s) {
      StringRead(p.blocks, padding, s, requests, if r.Printed? then r.text else []);
    }
  }

  /** Writing and reading back, after whatever the parameter held before. */
  method WriteThenRead(p: Parameter, s: seq<byte>, answers: seq<bool>, padding: nat -> Padding, replies: nat -> Reply)
    returns (written: bool, r: ReadResult)
    requires |s| <= STRING_MAX && NulFree(s)
    modifies p
    ensures written && AllGood(replies, SELECTOR_LIMIT) ==> r == Printed(s)
    ensures (forall k :: 0 <= k < |answers| ==> answers[k]) && SELECTOR_LIMIT <= |answers| ==> written
  {
    var sent, requests;
    BlocksMakeString(s);
    written, sent := WriteString(p, s, answers);
    r, requests := ReadString(p, padding, replies, s);
  }
}
