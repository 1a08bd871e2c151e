/**
The wire format of transactions.

Writers fill a buffer from an advancing offset, or only count when there is no buffer; the
parser reads with an advancing offset.  What is written is given by byte strings, and
parsing those byte strings is proved to restore the transaction.

Whether a script is a scriptPubKey that names an address is a parameter (`template`): the
parser uses it to tell unsigned inputs from signed ones.
*/
module TxWire {
  import opened Collections
  import opened Bits

  type Bytes = seq<Byte>

  datatype Input = Input(txHash: Bytes, index: nat, script: Bytes, amount: nat, signature: Option<Bytes>, sequence: nat)
  datatype Output = Output(amount: nat, script: Bytes)
  datatype Tx = Tx(version: nat, inputs: seq<Input>, outputs: seq<Output>, lockTime: nat)

  const SIGHASH_ALL: nat := 1
  const SIGHASH_NONE: nat := 2
  const SIGHASH_SINGLE: nat := 3
  const SIGHASH_FORKID: nat := 0x40
  const SIGHASH_ANYONECANPAY: nat := 0x80

  // ------------------------------------------------------------- little endian

  function LE(v: nat, n: nat): (b: Bytes)
    ensures |b| == n
    decreases n
  {
    if n == 0 then [] else [v % 256] + LE(v / 256, n - 1)
  }

  function FromLE(b: Bytes): nat {
    if b == [] then 0 else b[0] + 256 * FromLE(b[1..])
  }

  lemma {:induction false} FromLEOfLE(v: nat, n: nat)
    requires v < Pow2(8 * n)
    ensures FromLE(LE(v, n)) == v
    decreases n
  {
    if n > 0 {
      Pow2Values();
      Pow2Add(8, 8 * (n - 1));
      hide Pow2;
      FromLEOfLE(v / 256, n - 1);
      assert LE(v, n)[1..] == LE(v / 256, n - 1);
    }
  }

  lemma ByteBounds()
    ensures Pow2(8 * 2) == 0x1_0000 && Pow2(8 * 4) == 0x1_0000_0000 && Pow2(8 * 8) == 0x1_0000_0000_0000_0000
  {
    Pow2Values();
    Pow2Add(32, 32);
  }

  // ------------------------------------------------------------- bytes at an offset

  ghost predicate At(buf: Bytes, off: nat, b: Bytes) {
    off + |b| <= |buf| && buf[off..off + |b|] == b
  }

  lemma AtSplit(buf: Bytes, off: nat, a: Bytes, b: Bytes)
    ensures At(buf, off, a + b) <==> At(buf, off, a) && At(buf, off + |a|, b)
  {
    if off + |a| + |b| <= |buf| {
      var c := buf[off..off + |a| + |b|];
      assert c[..|a|] == buf[off..off + |a|] && c[|a|..] == buf[off + |a|..off + |a| + |b|];
      assert c == c[..|a|] + c[|a|..];
      assert (a + b)[..|a|] == a && (a + b)[|a|..] == b;
    }
  }

  function ReadLE(buf: Bytes, off: nat, n: nat): nat {
    if off + n <= |buf| then FromLE(buf[off..off + n]) else 0
  }

  lemma ReadWritten(buf: Bytes, off: nat, v: nat, n: nat)
    requires v < Pow2(8 * n) && At(buf, off, LE(v, n))
    ensures ReadLE(buf, off, n) == v
  {
    hide Pow2, LE, FromLE;
    FromLEOfLE(v, n);
  }

  // ------------------------------------------------------------------- varints

  function VarIntSize(i: nat): (n: nat)
    ensures 1 <= n <= 9
  {
    if i < 0xfd then 1 else if i <= 0xffff then 3 else if i <= 0xffff_ffff then 5 else 9
  }

  function VarInt(i: nat): (b: Bytes)
    ensures |b| == VarIntSize(i)
  {
    if i < 0xfd then [i]
    else if i <= 0xffff then [0xfd] + LE(i, 2)
    else if i <= 0xffff_ffff then [0xfe] + LE(i, 4)
    else [0xff] + LE(i, 8)
  }

  /** The value of the varint at an offset and its length; what is missing reads as zero. */
  function ReadVarInt(buf: Bytes, off: nat): (r: (nat, nat))
    ensures 1 <= r.1 <= 9
  {
    var h := if off < |buf| then buf[off] else 0;
    if h == 0xfd then (ReadLE(buf, off + 1, 2), 3)
    else if h == 0xfe then (ReadLE(buf, off + 1, 4), 5)
    else if h == 0xff then (ReadLE(buf, off + 1, 8), 9)
    else (h, 1)
  }

  /** A varint is read back with its length. */
  lemma ReadVarIntWritten(buf: Bytes, off: nat, i: nat)
    requires i < 0x1_0000_0000_0000_0000 && At(buf, off, VarInt(i))
    ensures ReadVarInt(buf, off) == (i, VarIntSize(i))
  {
    hide Pow2, LE, ReadLE;
    ByteBounds();
    var h := VarInt(i)[0];
    assert buf[off] == buf[off..off + VarIntSize(i)][0] == h;
    if i >= 0xfd {
      var n := VarIntSize(i) - 1;
      assert VarInt(i) == [h] + LE(i, n);
      AtSplit(buf, off, [h], LE(i, n));
      ReadWritten(buf, off + 1, i, n);
    }
  }

  // --------------------------------------------------------------- what is written

  /** An input that has a signature is written with it; one that has none with its script and nonzero amount. */
  function InputBytes(i: Input): Bytes {
    i.txHash + LE(i.index, 4) + Script(if i.signature.Some? then i.signature.value else i.script) +
    (if i.signature.None? && i.amount != 0 then LE(i.amount, 8) else []) + LE(i.sequence, 4)
  }

  function Script(s: Bytes): (b: Bytes)
    ensures |b| == VarIntSize(|s|) + |s|
  {
    VarInt(|s|) + s
  }

  function OutputBytes(o: Output): Bytes {
    LE(o.amount, 8) + Script(o.script)
  }

  function InputsBytes(ins: seq<Input>): Bytes {
    if ins == [] then [] else InputBytes(ins[0]) + InputsBytes(ins[1..])
  }

  function OutputsBytes(outs: seq<Output>): Bytes {
    if outs == [] then [] else OutputBytes(outs[0]) + OutputsBytes(outs[1..])
  }

  function TxBytes(tx: Tx): Bytes {
    LE(tx.version, 4) + (VarInt(|tx.inputs|) + InputsBytes(tx.inputs)) +
    (VarInt(|tx.outputs|) + OutputsBytes(tx.outputs)) + LE(tx.lockTime, 4)
  }

  /** What is written for the whole transaction under a signature hash type: nothing for the fork-id and
      anyone-can-pay types, and no outputs for "none" and "single". */
  function DataBytes(tx: Tx, hashType: nat): Option<Bytes> {
    if hashType / SIGHASH_FORKID % 2 == 1 || hashType / SIGHASH_ANYONECANPAY % 2 == 1 then None
    else
      Some(LE(tx.version, 4) + (VarInt(|tx.inputs|) + InputsBytes(tx.inputs)) +
           (if hashType % 32 in {SIGHASH_NONE, SIGHASH_SINGLE} then VarInt(0)
            else VarInt(|tx.outputs|) + OutputsBytes(tx.outputs)) + LE(tx.lockTime, 4))
  }

  /** Signing hashes with type 0 and serializing writes with type "all": the same bytes. */
  lemma SignedIsSerialized(tx: Tx)
    ensures DataBytes(tx, 0) == DataBytes(tx, SIGHASH_ALL) == Some(TxBytes(tx))
  {
    hide LE, VarInt, InputsBytes, OutputsBytes;
  }

  // ------------------------------------------------------------------ what is read

  type Template = Bytes -> bool

  /** What was read, the offset after it, and whether no script matched the template. */
  datatype Read<T> = Read(value: T, off: nat, isSigned: bool)

  function ReadHash(buf: Bytes, off: nat): Bytes {
    if off + 32 <= |buf| then buf[off..off + 32] else seq(32, _ => 0)
  }

  function ReadInput(template: Template, buf: Bytes, off: nat): (r: Read<Input>)
    ensures r.off > off
  {
    var (sLen, len) := ReadVarInt(buf, off + 36);
    var o := off + 36 + len;
    var i := Input(ReadHash(buf, off), ReadLE(buf, off + 32, 4), [], 0, None, 0);
    if o + sLen <= |buf| && template(buf[o..o + sLen]) then
      Read(i.(script := buf[o..o + sLen], amount := ReadLE(buf, o + sLen, 8), sequence := ReadLE(buf, o + 8 + sLen, 4)),
           o + 8 + sLen + 4, false)
    else if o + sLen <= |buf| then
      Read(i.(signature := Some(buf[o..o + sLen]), sequence := ReadLE(buf, o + sLen, 4)), o + sLen + 4, true)
    else
      Read(i.(sequence := ReadLE(buf, o + sLen, 4)), o + sLen + 4, true)
  }

  function ReadOutput(buf: Bytes, off: nat): (r: Read<Output>)
    ensures r.off > off
  {
    var (sLen, len) := ReadVarInt(buf, off + 8);
    var o := off + 8 + len;
    Read(Output(ReadLE(buf, off, 8), if o + sLen <= |buf| then buf[o..o + sLen] else []), o + sLen, true)
  }

  function ReadInputs(template: Template, buf: Bytes, off: nat, n: nat): Read<seq<Input>>
    decreases n
  {
    if n == 0 || off > |buf| then Read([], off, true)
    else
      var i := ReadInput(template, buf, off);
      var rest := ReadInputs(template, buf, i.off, n - 1);
      Read([i.value] + rest.value, rest.off, i.isSigned && rest.isSigned)
  }

  function ReadOutputs(buf: Bytes, off: nat, n: nat): (r: Read<seq<Output>>)
    ensures r.isSigned
    decreases n
  {
    if n == 0 || off > |buf| then Read([], off, true)
    else
      var o := ReadOutput(buf, off);
      var rest := ReadOutputs(buf, o.off, n - 1);
      Read([o.value] + rest.value, rest.off, true)
  }

  /** A parsed transaction, and the bytes its hash is taken over when every input is signed. */
  datatype Parsed = Parsed(tx: Tx, hashed: Option<Bytes>)

  function ParsedFrom(template: Template, buf: Bytes): Option<Parsed> {
    var version := ReadLE(buf, 0, 4);
    var (inCount, len) := ReadVarInt(buf, 4);
    var ins := ReadInputs(template, buf, 4 + len, inCount);
    var (outCount, len') := ReadVarInt(buf, ins.off);
    var outs := ReadOutputs(buf, ins.off + len', outCount);
    var end := outs.off + 4;
    if inCount == 0 || end > |buf| then None
    else
      Some(Parsed(Tx(version, ins.value, outs.value, ReadLE(buf, outs.off, 4)),
                  if ins.isSigned then Some(buf[..end]) else None))
  }

  // --------------------------------------------------------------- the round trip

  /** Fields fit their widths. */
  ghost predicate InputFits(i: Input) {
    && |i.txHash| == 32 && i.index < 0x1_0000_0000 && i.sequence < 0x1_0000_0000
    && i.amount < 0x1_0000_0000_0000_0000 && |i.script| < 0x1_0000_0000_0000_0000
    && (i.signature.Some? ==> |i.signature.value| < 0x1_0000_0000_0000_0000)
  }

  ghost predicate OutputFits(o: Output) {
    o.amount < 0x1_0000_0000_0000_0000 && |o.script| < 0x1_0000_0000_0000_0000
  }

  /**
  The parser can tell what the input is: a scriptSig is no template, an unsigned script is
  one and its amount is written.
  */
  ghost predicate Recognisable(template: Template, i: Input) {
    if i.signature.Some? then !template(i.signature.value) else template(i.script) && i.amount != 0
  }

  ghost predicate InputsFit(ins: seq<Input>) {
    forall i | i in ins :: InputFits(i)
  }

  ghost predicate AllRecognisable(template: Template, ins: seq<Input>) {
    forall i | i in ins :: Recognisable(template, i)
  }

  ghost predicate OutputsOk(outs: seq<Output>) {
    forall o | o in outs :: OutputFits(o)
  }

  /** At least one input, and everything within its width. */
  ghost predicate TxFits(tx: Tx) {
    && tx.version < 0x1_0000_0000 && tx.lockTime < 0x1_0000_0000
    && 0 < |tx.inputs| < 0x1_0000_0000_0000_0000 && |tx.outputs| < 0x1_0000_0000_0000_0000
    && InputsFit(tx.inputs) && OutputsOk(tx.outputs)
  }

  /** What of an input is on the wire: a signed one goes without the script and amount it spends. */
  function Wire(i: Input): Input {
    if i.signature.Some? then i.(script := [], amount := 0) else i
  }

  function WireInputs(ins: seq<Input>): seq<Input> {
    if ins == [] then [] else [Wire(ins[0])] + WireInputs(ins[1..])
  }

  lemma ReadScript(buf: Bytes, off: nat, s: Bytes)
    requires |s| < 0x1_0000_0000_0000_0000 && At(buf, off, Script(s))
    ensures ReadVarInt(buf, off) == (|s|, VarIntSize(|s|))
    ensures At(buf, off + VarIntSize(|s|), s)
  {
    hide VarInt, ReadVarInt;
    AtSplit(buf, off, VarInt(|s|), s);
    ReadVarIntWritten(buf, off, |s|);
  }

  /** The fields of an input where the parser looks for them. */
  lemma InputFields(buf: Bytes, off: nat, i: Input)
    requires |i.txHash| == 32 && At(buf, off, InputBytes(i))
    ensures var s := if i.signature.Some? then i.signature.value else i.script;
            var a := if i.signature.None? && i.amount != 0 then LE(i.amount, 8) else [];
            var o := off + 36 + |Script(s)|;
            && At(buf, off, i.txHash) && At(buf, off + 32, LE(i.index, 4)) && At(buf, off + 36, Script(s))
            && At(buf, o, a) && At(buf, o + |a|, LE(i.sequence, 4)) && |InputBytes(i)| == 36 + |Script(s)| + |a| + 4
  {
    hide At, LE, Script;
    var s := if i.signature.Some? then i.signature.value else i.script;
    var a := if i.signature.None? && i.amount != 0 then LE(i.amount, 8) else [];
    AtSplit(buf, off, i.txHash + LE(i.index, 4) + Script(s) + a, LE(i.sequence, 4));
    AtSplit(buf, off, i.txHash + LE(i.index, 4) + Script(s), a);
    AtSplit(buf, off, i.txHash + LE(i.index, 4), Script(s));
    AtSplit(buf, off, i.txHash, LE(i.index, 4));
  }

  /** An input is read back as it was, up to where it ends, if and only if it is recognisable. */
  lemma ReadInputWritten(template: Template, buf: Bytes, off: nat, i: Input)
    requires InputFits(i) && At(buf, off, InputBytes(i))
    ensures ReadInput(template, buf, off) == Read(Wire(i), off + |InputBytes(i)|, i.signature.Some?) <==>
              Recognisable(template, i)
  {
    hide LE, ReadLE, ReadVarInt, InputBytes, Pow2;
    InputFields(buf, off, i);
    ByteBounds();
    ReadWritten(buf, off + 32, i.index, 4);
    var s := if i.signature.Some? then i.signature.value else i.script;
    ReadScript(buf, off + 36, s);
    var o := off + 36 + |Script(s)|;
    if i.signature.Some? {
      ReadWritten(buf, o, i.sequence, 4);
    } else if i.amount != 0 {
      ReadWritten(buf, o, i.amount, 8);
      ReadWritten(buf, o + 8, i.sequence, 4);
    }
  }

  lemma ReadOutputWritten(buf: Bytes, off: nat, o: Output)
    requires OutputFits(o) && At(buf, off, OutputBytes(o))
    ensures ReadOutput(buf, off) == Read(o, off + |OutputBytes(o)|, true)
  {
    hide LE, ReadLE, ReadVarInt, Pow2;
    ByteBounds();
    AtSplit(buf, off, LE(o.amount, 8), Script(o.script));
    ReadWritten(buf, off, o.amount, 8);
    ReadScript(buf, off + 8, o.script);
  }

  lemma {:induction false} ReadInputsWritten(template: Template, buf: Bytes, off: nat, ins: seq<Input>)
    requires InputsFit(ins) && AllRecognisable(template, ins) && At(buf, off, InputsBytes(ins))
    ensures ReadInputs(template, buf, off, |ins|) == Read(WireInputs(ins), off + |InputsBytes(ins)|, AllSigned(ins))
    decreases |ins|
  {
    hide ReadInput, InputBytes, Wire;
    if ins != [] {
      AtSplit(buf, off, InputBytes(ins[0]), InputsBytes(ins[1..]));
      ReadInputWritten(template, buf, off, ins[0]);
      ReadInputsWritten(template, buf, off + |InputBytes(ins[0])|, ins[1..]);
      assert AllSigned(ins) <==> ins[0].signature.Some? && AllSigned(ins[1..]) by { AllSignedSplit(ins); }
    }
  }

  lemma AllSignedSplit(ins: seq<Input>)
    requires ins != []
    ensures AllSigned(ins) <==> ins[0].signature.Some? && AllSigned(ins[1..])
  {
    if AllSigned(ins[1..]) {
      assert forall i | 1 <= i < |ins| :: ins[i] == ins[1..][i - 1];
    }
  }

  predicate AllSigned(ins: seq<Input>) {
    forall i | 0 <= i < |ins| :: ins[i].signature.Some?
  }

  lemma {:induction false} ReadOutputsWritten(buf: Bytes, off: nat, outs: seq<Output>)
    requires OutputsOk(outs) && At(buf, off, OutputsBytes(outs))
    ensures ReadOutputs(buf, off, |outs|) == Read(outs, off + |OutputsBytes(outs)|, true)
    decreases |outs|
  {
    hide ReadOutput, OutputBytes, At, ReadOutputs, OutputsBytes, OutputFits;
    OutputsBytesStep(outs);
    ReadOutputsStep(buf, off, |outs|);
    if outs != [] {
      var first, rest := outs[0], outs[1..];
      AtSplit(buf, off, OutputBytes(first), OutputsBytes(rest));
      AtWithin(buf, off, OutputBytes(first));
      ReadOutputWritten(buf, off, first);
      ReadOutputsWritten(buf, off + |OutputBytes(first)|, rest);
      assert outs == [first] + rest;
    }
  }

  lemma OutputsBytesStep(outs: seq<Output>)
    ensures OutputsBytes(outs) == if outs == [] then [] else OutputBytes(outs[0]) + OutputsBytes(outs[1..])
  {
    hide OutputBytes;
  }

  lemma ReadOutputsStep(buf: Bytes, off: nat, n: nat)
    ensures n == 0 ==> ReadOutputs(buf, off, n) == Read([], off, true)
    ensures n > 0 && off <= |buf| ==>
              var o := ReadOutput(buf, off);
              var rest := ReadOutputs(buf, o.off, n - 1);
              ReadOutputs(buf, off, n) == Read([o.value] + rest.value, rest.off, true)
  {
    hide ReadOutput;
  }

  lemma AtWithin(buf: Bytes, off: nat, b: Bytes)
    requires At(buf, off, b)
    ensures off + |b| <= |buf|
  {
  }

  lemma TxFields(buf: Bytes, tx: Tx)
    requires At(buf, 0, TxBytes(tx))
    ensures var i := 4 + VarIntSize(|tx.inputs|);
            var o := i + |InputsBytes(tx.inputs)|;
            var e := o + VarIntSize(|tx.outputs|) + |OutputsBytes(tx.outputs)|;
            && At(buf, 0, LE(tx.version, 4)) && At(buf, 4, VarInt(|tx.inputs|)) && At(buf, i, InputsBytes(tx.inputs))
            && At(buf, o, VarInt(|tx.outputs|)) && At(buf, o + VarIntSize(|tx.outputs|), OutputsBytes(tx.outputs))
            && At(buf, e, LE(tx.lockTime, 4)) && |TxBytes(tx)| == e + 4
  {
    hide At, LE, VarInt, InputsBytes, OutputsBytes;
    var ins, outs := VarInt(|tx.inputs|) + InputsBytes(tx.inputs), VarInt(|tx.outputs|) + OutputsBytes(tx.outputs);
    AtSplit(buf, 0, LE(tx.version, 4) + ins + outs, LE(tx.lockTime, 4));
    AtSplit(buf, 0, LE(tx.version, 4) + ins, outs);
    AtSplit(buf, 0, LE(tx.version, 4), ins);
    AtSplit(buf, 4, VarInt(|tx.inputs|), InputsBytes(tx.inputs));
    AtSplit(buf, 4 + |ins|, VarInt(|tx.outputs|), OutputsBytes(tx.outputs));
  }

  /** A transaction as the parser restores it from the wire. */
  function Restored(tx: Tx): Parsed {
    Parsed(tx.(inputs := WireInputs(tx.inputs)), if AllSigned(tx.inputs) then Some(TxBytes(tx)) else None)
  }

  /**
  Parsing what was written, with anything after it, restores the transaction as it is on
  the wire; a fully signed one is hashed over exactly the bytes written.
  */
  lemma ParseWritten(template: Template, tx: Tx, rest: Bytes)
    requires TxFits(tx) && AllRecognisable(template, tx.inputs)
    ensures ParsedFrom(template, TxBytes(tx) + rest) == Some(Restored(tx))
  {
    hide LE, ReadLE, VarInt, ReadVarInt, InputsBytes, OutputsBytes, ReadInputs, ReadOutputs;
    hide WireInputs, AllSigned, Pow2, InputsFit, OutputsOk, AllRecognisable;
    var buf := TxBytes(tx) + rest;
    assert At(buf, 0, TxBytes(tx)) && buf[..|TxBytes(tx)|] == TxBytes(tx) by { WholeAt(TxBytes(tx), rest); }
    hide TxBytes;
    TxFields(buf, tx);
    ByteBounds();
    ReadWritten(buf, 0, tx.version, 4);
    ReadVarIntWritten(buf, 4, |tx.inputs|);
    var i := 4 + VarIntSize(|tx.inputs|);
    ReadInputsWritten(template, buf, i, tx.inputs);
    var o := i + |InputsBytes(tx.inputs)|;
    ReadVarIntWritten(buf, o, |tx.outputs|);
    ReadOutputsWritten(buf, o + VarIntSize(|tx.outputs|), tx.outputs);
    ReadWritten(buf, o + VarIntSize(|tx.outputs|) + |OutputsBytes(tx.outputs)|, tx.lockTime, 4);
  }

  lemma WholeAt(b: Bytes, rest: Bytes)
    ensures At(b + rest, 0, b) && (b + rest)[..|b|] == b
  {
  }

  // ------------------------------------------------- what a parsed transaction costs

  lemma {:induction false} FromLEBound(b: Bytes)
    ensures FromLE(b) < Pow2(8 * |b|)
  {
    if b != [] {
      FromLEBound(b[1..]);
      Pow2Values();
      Pow2Add(8, 8 * (|b| - 1));
      hide Pow2;
    }
  }

  lemma ReadLEBound(buf: Bytes, off: nat, n: nat)
    ensures ReadLE(buf, off, n) < Pow2(8 * n)
  {
    hide FromLE, Pow2;
    if off + n <= |buf| { FromLEBound(buf[off..off + n]); }
  }

  /** A varint is never shorter than its value needs. */
  lemma ReadVarIntMinimal(buf: Bytes, off: nat)
    ensures var (v, n) := ReadVarInt(buf, off); VarIntSize(v) <= n
  {
    hide ReadLE, Pow2;
    ByteBounds();
    ReadLEBound(buf, off + 1, 2);
    ReadLEBound(buf, off + 1, 4);
  }

  /** The bytes an input takes at least where it is read: eight for the amount of every unsigned one. */
  function InputCost(i: Input): nat {
    40 + |Script(if i.signature.Some? then i.signature.value else i.script)| + if i.signature.None? then 8 else 0
  }

  function InputsCost(ins: seq<Input>): nat {
    if ins == [] then 0 else InputCost(ins[0]) + InputsCost(ins[1..])
  }

  /** What the template said of an input that was read. */
  ghost predicate Told(template: Template, i: Input) {
    if i.signature.Some? then !template(i.signature.value) else template(i.script)
  }

  lemma ReadInputCost(template: Template, buf: Bytes, off: nat)
    requires ReadInput(template, buf, off).off <= |buf|
    ensures var r := ReadInput(template, buf, off); Told(template, r.value) && r.off >= off + InputCost(r.value)
  {
    hide ReadLE, ReadVarInt, VarInt, ReadHash;
    ReadVarIntMinimal(buf, off + 36);
  }

  lemma {:induction false} ReadInputsCost(template: Template, buf: Bytes, off: nat, n: nat)
    requires ReadInputs(template, buf, off, n).off <= |buf|
    ensures var r := ReadInputs(template, buf, off, n);
            && off <= r.off && |r.value| == n && r.off >= off + InputsCost(r.value)
            && forall i | i in r.value :: Told(template, i)
    decreases n
  {
    hide ReadInput, InputCost, Told;
    ReadInputsForward(template, buf, off, n);
    if n > 0 {
      var i := ReadInput(template, buf, off);
      ReadInputsForward(template, buf, i.off, n - 1);
      ReadInputCost(template, buf, off);
      ReadInputsCost(template, buf, i.off, n - 1);
      var rest := ReadInputs(template, buf, i.off, n - 1).value;
      assert ([i.value] + rest)[1..] == rest;
    }
  }

  lemma {:induction false} ReadInputsForward(template: Template, buf: Bytes, off: nat, n: nat)
    ensures ReadInputs(template, buf, off, n).off >= off
    decreases n
  {
    hide ReadInput;
    if n > 0 && off <= |buf| { ReadInputsForward(template, buf, ReadInput(template, buf, off).off, n - 1); }
  }

  lemma {:induction false} ReadOutputsForward(buf: Bytes, off: nat, n: nat)
    ensures ReadOutputs(buf, off, n).off >= off
    decreases n
  {
    hide ReadOutput;
    if n > 0 && off <= |buf| { ReadOutputsForward(buf, ReadOutput(buf, off).off, n - 1); }
  }

  lemma ReadOutputCost(buf: Bytes, off: nat)
    requires ReadOutput(buf, off).off <= |buf|
    ensures var r := ReadOutput(buf, off); r.off >= off + |OutputBytes(r.value)|
  {
    hide ReadLE, ReadVarInt, VarInt, LE;
    ReadVarIntMinimal(buf, off + 8);
  }

  lemma {:induction false} ReadOutputsCost(buf: Bytes, off: nat, n: nat)
    requires ReadOutputs(buf, off, n).off <= |buf|
    ensures var r := ReadOutputs(buf, off, n); |r.value| == n && r.off >= off + |OutputsBytes(r.value)|
    decreases n
  {
    hide ReadOutput, OutputBytes;
    ReadOutputsForward(buf, off, n);
    if n > 0 {
      var o := ReadOutput(buf, off);
      ReadOutputsForward(buf, o.off, n - 1);
      ReadOutputCost(buf, off);
      ReadOutputsCost(buf, o.off, n - 1);
      var rest := ReadOutputs(buf, o.off, n - 1).value;
      assert ([o.value] + rest)[1..] == rest;
    }
  }

  /** A parsed transaction took at least its cost. */
  lemma ParsedCost(template: Template, buf: Bytes, p: Parsed)
    requires ParsedFrom(template, buf) == Some(p)
    ensures |buf| >= 8 + VarIntSize(|p.tx.inputs|) + InputsCost(p.tx.inputs) +
                     VarIntSize(|p.tx.outputs|) + |OutputsBytes(p.tx.outputs)|
    ensures forall i | i in p.tx.inputs :: Told(template, i)
  {
    hide ReadLE, ReadVarInt, ReadInputs, ReadOutputs, InputsCost, OutputsBytes, Told, VarIntSize;
    var (inCount, len) := ReadVarInt(buf, 4);
    var ins := ReadInputs(template, buf, 4 + len, inCount);
    var (outCount, len') := ReadVarInt(buf, ins.off);
    ReadOutputsForward(buf, ins.off + len', outCount);
    ReadOutputsCost(buf, ins.off + len', outCount);
    ReadInputsCost(template, buf, 4 + len, inCount);
    ReadVarIntMinimal(buf, 4);
    ReadVarIntMinimal(buf, ins.off);
  }

  lemma WireCost(i: Input)
    requires |i.txHash| == 32
    ensures InputCost(Wire(i)) == |InputBytes(i)| + if i.signature.None? && i.amount == 0 then 8 else 0
  {
    hide VarInt;
  }

  lemma FitsTail(ins: seq<Input>)
    requires InputsFit(ins) && ins != []
    ensures |ins[0].txHash| == 32 && InputsFit(ins[1..])
  {
    assert ins[0] in ins;
    assert forall i | i in ins[1..] :: i in ins;
  }

  lemma WireStep(ins: seq<Input>)
    requires ins != []
    ensures InputsCost(WireInputs(ins)) == InputCost(Wire(ins[0])) + InputsCost(WireInputs(ins[1..]))
    ensures InputsBytes(ins) == InputBytes(ins[0]) + InputsBytes(ins[1..])
    ensures WireInputs(ins) == [Wire(ins[0])] + WireInputs(ins[1..])
  {
    hide InputBytes, InputCost, Wire;
    assert ([Wire(ins[0])] + WireInputs(ins[1..]))[1..] == WireInputs(ins[1..]);
  }

  lemma {:induction false} WireInputsCost(ins: seq<Input>)
    requires InputsFit(ins)
    ensures |WireInputs(ins)| == |ins| && InputsCost(WireInputs(ins)) >= |InputsBytes(ins)|
  {
    if ins != [] {
      hide InputBytes, InputCost, Wire, InputsFit, WireInputs, InputsBytes, InputsCost;
      FitsTail(ins);
      WireStep(ins);
      WireCost(ins[0]);
      WireInputsCost(ins[1..]);
    }
  }

  /** Read back, inputs take as many bytes as were written only if none is unsigned with amount zero. */
  lemma {:induction false} WireInputsExact(template: Template, ins: seq<Input>)
    requires InputsFit(ins) && InputsCost(WireInputs(ins)) == |InputsBytes(ins)|
    requires forall w | w in WireInputs(ins) :: Told(template, w)
    ensures AllRecognisable(template, ins)
  {
    if ins != [] {
      hide InputBytes, InputCost, Wire, InputsFit, WireInputs, InputsBytes, InputsCost, Told, Recognisable;
      var rest := ins[1..];
      FitsTail(ins);
      WireStep(ins);
      WireCost(ins[0]);
      WireInputsCost(rest);
      assert Told(template, Wire(ins[0])) by { assert WireInputs(ins)[0] == Wire(ins[0]); }
      ToldWire(template, ins[0]);
      assert forall w | w in WireInputs(rest) :: w in WireInputs(ins);
      WireInputsExact(template, rest);
      assert forall i | i in ins :: i == ins[0] || i in rest;
    }
  }

  lemma ToldWire(template: Template, i: Input)
    requires Told(template, Wire(i)) && !(i.signature.None? && i.amount == 0)
    ensures Recognisable(template, i)
  {
  }

  /** A serialized transaction is restored if and only if every input is recognisable. */
  lemma ParseExactly(template: Template, tx: Tx)
    requires TxFits(tx)
    ensures ParsedFrom(template, TxBytes(tx)) == Some(Restored(tx)) <==> AllRecognisable(template, tx.inputs)
  {
    if AllRecognisable(template, tx.inputs) {
      ParseWritten(template, tx, []);
      assert TxBytes(tx) + [] == TxBytes(tx);
    } else if ParsedFrom(template, TxBytes(tx)) == Some(Restored(tx)) {
      ParsedCost(template, TxBytes(tx), Restored(tx));
      TxLength(tx);
      WireInputsCost(tx.inputs);
      WireInputsExact(template, tx.inputs);
    }
  }

  // -------------------------------------------------------------------- writing

  ghost function Contents(data: array?<Byte>): Bytes
    reads data
  {
    if data == null then [] else data[..]
  }

  /** No buffer, or one with `n` bytes left from `at`. */
  ghost predicate Room(data: array?<Byte>, at: nat, n: nat) {
    data == null || at + n <= data.Length
  }

  ghost predicate Wrote(data: array?<Byte>, at: nat, b: Bytes)
    reads data
  {
    data != null ==> At(Contents(data), at, b)
  }

  /** What was before `at` is still there. */
  ghost predicate Kept(was: Bytes, now: Bytes, at: nat) {
    |was| == |now| && forall k | 0 <= k < at && k < |was| :: was[k] == now[k]
  }

  lemma KeptTwice(a: Bytes, b: Bytes, c: Bytes, at: nat, next: nat)
    requires Kept(a, b, at) && Kept(b, c, next) && at <= next
    ensures Kept(a, c, at)
  {
  }

  lemma StillAt(was: Bytes, now: Bytes, at: nat, b: Bytes, next: nat)
    requires Kept(was, now, next) && at + |b| <= next && At(was, at, b)
    ensures At(now, at, b)
  {
    forall k | 0 <= k < |b| ensures now[at..at + |b|][k] == b[k] {
      assert was[at..at + |b|][k] == b[k];
    }
  }

  // What is reported for a buffer of any size.  A field is counted whether or not it fits; a varint, an input
  // and the outputs as a whole count as nothing where they do not fit.

  function VarIntReach(cap: Option<nat>, at: nat, v: nat): nat {
    if Holds(cap, at + VarIntSize(v)) then VarIntSize(v) else 0
  }

  predicate Holds(cap: Option<nat>, n: nat) {
    cap.None? || n <= cap.value
  }

  function InputReach(cap: Option<nat>, at: nat, length: nat): nat {
    if Holds(cap, at + length) then length else 0
  }

  /** The offset after the inputs. */
  function InputsReach(cap: Option<nat>, at: nat, ins: seq<Input>): nat {
    if ins == [] then at
    else
      var before := InputsReach(cap, at, ins[..|ins| - 1]);
      before + InputReach(cap, before, |InputBytes(ins[|ins| - 1])|)
  }

  function ScriptReach(cap: Option<nat>, at: nat, s: Bytes): nat {
    VarIntReach(cap, at, |s|) + |s|
  }

  /** The offset after the outputs, before it is looked at. */
  function OutputsOffset(cap: Option<nat>, at: nat, outs: seq<Output>): (end: nat)
    ensures end >= at
  {
    if outs == [] then at
    else
      var before := OutputsOffset(cap, at, outs[..|outs| - 1]);
      before + 8 + ScriptReach(cap, before + 8, outs[|outs| - 1].script)
  }

  function OutputsReach(cap: Option<nat>, at: nat, outs: seq<Output>): nat {
    var end := OutputsOffset(cap, at, outs);
    if Holds(cap, end) then end - at else 0
  }

  /** The offset after the whole transaction. */
  function TxReach(cap: Option<nat>, tx: Tx): nat {
    var ins := InputsReach(cap, 4 + VarIntReach(cap, 4, |tx.inputs|), tx.inputs);
    var outs := ins + VarIntReach(cap, ins, |tx.outputs|);
    outs + OutputsReach(cap, outs, tx.outputs) + 4
  }

  /** What serializing into a buffer of this size reports: the offset reached, if it is within the buffer. */
  function Reported(cap: Option<nat>, tx: Tx): nat {
    if Holds(cap, TxReach(cap, tx)) then TxReach(cap, tx) else 0
  }

  ghost function Cap(data: array?<Byte>): Option<nat> {
    if data == null then None else Some(data.Length)
  }

  lemma InputsReachTake(cap: Option<nat>, at: nat, ins: seq<Input>, i: nat)
    requires i < |ins|
    ensures var before := InputsReach(cap, at, ins[..i]);
            InputsReach(cap, at, ins[..i + 1]) == before + InputReach(cap, before, |InputBytes(ins[i])|)
  {
    hide InputBytes;
    assert ins[..i + 1][..i] == ins[..i];
  }

  lemma OutputsOffsetTake(cap: Option<nat>, at: nat, outs: seq<Output>, i: nat)
    requires i < |outs|
    ensures var before := OutputsOffset(cap, at, outs[..i]);
            OutputsOffset(cap, at, outs[..i + 1]) == before + 8 + ScriptReach(cap, before + 8, outs[i].script)
  {
    hide ScriptReach;
    assert outs[..i + 1][..i] == outs[..i];
  }

  /** An input counts as nothing exactly where it does not fit, although its length is skipped where that does not. */
  lemma InputReported(cap: Option<nat>, at: nat, sig: Bytes, extra: nat)
    ensures var off := 36 + ScriptReach(cap, at + 36, sig) + extra + 4;
            (if Holds(cap, at + off) then off else 0) == InputReach(cap, at, 40 + VarIntSize(|sig|) + |sig| + extra)
  {
  }

  /** Copies the bytes if there is a buffer with room for them. */
  method Put(data: array?<Byte>, at: nat, b: Bytes)
    modifies data
    ensures Kept(old(Contents(data)), Contents(data), at)
    ensures Room(data, at, |b|) ==> Wrote(data, at, b)
  {
    if data != null && at + |b| <= data.Length {
      for i := 0 to |b|
        invariant forall k | 0 <= k < at :: data[k] == old(data[k])
        invariant forall k | 0 <= k < i :: data[at + k] == b[k]
      {
        data[at + i] := b[i];
      }
    }
  }

  /**
  A writer that started at `start` has advanced by `off`.  While there is room for what it
  has to write so far, that is what the buffer holds.
  */
  ghost predicate Progress(data: array?<Byte>, was: Bytes, now: Bytes, start: nat, off: nat, done: Bytes) {
    && Kept(was, now, start)
    && (Room(data, start, |done|) ==> off == |done| && (data != null ==> At(now, start, done)))
  }

  lemma Begin(data: array?<Byte>, start: nat)
    ensures Progress(data, Contents(data), Contents(data), start, 0, [])
  {
  }

  /** One part more: written after the others it leaves them, and the whole is their concatenation. */
  lemma Advance(data: array?<Byte>, was: Bytes, mid: Bytes, start: nat, off: nat, done: Bytes, n: nat, b: Bytes)
    requires Progress(data, was, mid, start, off, done) && Kept(mid, Contents(data), start + off)
    requires Room(data, start + off, |b|) ==> n == |b| && Wrote(data, start + off, b)
    ensures Progress(data, was, Contents(data), start, off + n, done + b)
  {
    hide Kept, At;
    KeptTwice(was, mid, Contents(data), start, start + off);
    if Room(data, start, |done + b|) && data != null {
      StillAt(mid, Contents(data), start, done, start + off);
      AtSplit(Contents(data), start, done, b);
    }
  }

  /** Writes a varint; nothing, and length 0, if it does not fit. */
  method VarIntSet(data: array?<Byte>, at: nat, i: nat) returns (n: nat)
    modifies data
    ensures Kept(old(Contents(data)), Contents(data), at)
    ensures Room(data, at, VarIntSize(i)) ==> n == VarIntSize(i) && Wrote(data, at, VarInt(i))
    ensures !Room(data, at, VarIntSize(i)) ==> n == 0
  {
    Put(data, at, VarInt(i));
    n := if data == null || at + VarIntSize(i) <= data.Length then VarIntSize(i) else 0;
  }

  method PutScript(data: array?<Byte>, at: nat, s: Bytes) returns (n: nat)
    modifies data
    ensures Progress(data, old(Contents(data)), Contents(data), at, n, Script(s))
    ensures n == ScriptReach(Cap(data), at, s)
  {
    hide VarInt, At, Kept;
    ghost var was := Contents(data);
    Begin(data, at);
    n := VarIntSet(data, at, |s|);
    Advance(data, was, was, at, 0, [], n, VarInt(|s|));
    assert [] + VarInt(|s|) == VarInt(|s|);
    ghost var mid := Contents(data);
    Put(data, at + n, s);
    Advance(data, was, mid, at, n, VarInt(|s|), |s|, s);
    n := n + |s|;
  }

  /** What is written for an input, with `sig` where the scriptSig goes. */
  function InputData(i: Input, sig: Bytes, amount: nat): Bytes {
    i.txHash + LE(i.index, 4) + Script(sig) + (if amount != 0 then LE(amount, 8) else []) + LE(i.sequence, 4)
  }

  method TxInputData(i: Input, sig: Bytes, amount: nat, data: array?<Byte>, at: nat) returns (n: nat)
    requires |i.txHash| == 32
    modifies data
    ensures Progress(data, old(Contents(data)), Contents(data), at, n, InputData(i, sig, amount))
    ensures n == InputReach(Cap(data), at, |InputData(i, sig, amount)|)
  {
    hide LE, Script, At, Kept, Progress, ScriptReach, InputReach;
    InputReported(Cap(data), at, sig, if amount != 0 then 8 else 0);
    ghost var was := Contents(data);
    Begin(data, at);
    Put(data, at, i.txHash);
    Advance(data, was, was, at, 0, [], 32, i.txHash);
    ghost var done := [] + i.txHash;
    assert done == i.txHash;
    ghost var mid := Contents(data);
    Put(data, at + 32, LE(i.index, 4));
    Advance(data, was, mid, at, 32, done, 4, LE(i.index, 4));
    done := done + LE(i.index, 4);
    mid := Contents(data);
    n := PutScript(data, at + 36, sig);
    AdvanceWith(data, was, mid, at, 36, done, n, Script(sig));
    done := done + Script(sig);
    n := 36 + n;
    if amount != 0 {
      mid := Contents(data);
      Put(data, at + n, LE(amount, 8));
      Advance(data, was, mid, at, n, done, 8, LE(amount, 8));
      done := done + LE(amount, 8);
      n := n + 8;
    } else {
      assert done + [] == done;
    }
    mid := Contents(data);
    Put(data, at + n, LE(i.sequence, 4));
    Advance(data, was, mid, at, n, done, 4, LE(i.sequence, 4));
    done := done + LE(i.sequence, 4);
    n := n + 4;
    Refuse(data, was, at, n, done);
    if data != null && at + n > data.Length {
      n := 0;
    }
  }

  lemma AdvanceWith(data: array?<Byte>, was: Bytes, mid: Bytes, start: nat, off: nat, done: Bytes, n: nat, b: Bytes)
    requires Progress(data, was, mid, start, off, done) && Progress(data, mid, Contents(data), start + off, n, b)
    ensures Progress(data, was, Contents(data), start, off + n, done + b)
  {
    Advance(data, was, mid, start, off, done, n, b);
  }

  /** Reporting nothing when the offset has left the buffer changes nothing where there is room. */
  lemma Refuse(data: array?<Byte>, was: Bytes, at: nat, n: nat, done: Bytes)
    requires Progress(data, was, Contents(data), at, n, done)
    ensures Progress(data, was, Contents(data), at, if data != null && at + n > data.Length then 0 else n, done)
  {
  }

  /** The outputs, each an amount and a script. */
  method TransactionOutputData(tx: Tx, data: array?<Byte>, at: nat) returns (n: nat)
    modifies data
    ensures Progress(data, old(Contents(data)), Contents(data), at, n, OutputsBytes(tx.outputs))
    ensures n == OutputsReach(Cap(data), at, tx.outputs)
  {
    hide LE, Script, At, Kept, Progress, ScriptReach, OutputsBytes;
    ghost var was := Contents(data);
    n := 0;
    Begin(data, at);
    OutputsNone(tx.outputs);
    for i := 0 to |tx.outputs|
      invariant Progress(data, was, Contents(data), at, n, OutputsBytes(tx.outputs[..i]))
      invariant at + n == OutputsOffset(Cap(data), at, tx.outputs[..i])
    {
      OutputsOffsetTake(Cap(data), at, tx.outputs, i);
      ghost var mid := Contents(data);
      Put(data, at + n, LE(tx.outputs[i].amount, 8));
      ghost var done := OutputsBytes(tx.outputs[..i]);
      Advance(data, was, mid, at, n, done, 8, LE(tx.outputs[i].amount, 8));
      mid := Contents(data);
      var len := PutScript(data, at + n + 8, tx.outputs[i].script);
      AdvanceWith(data, was, mid, at, n + 8, done + LE(tx.outputs[i].amount, 8), len, Script(tx.outputs[i].script));
      OutputsTake(tx.outputs, i);
      n := n + 8 + len;
    }
    assert tx.outputs[..|tx.outputs|] == tx.outputs;
    Refuse(data, was, at, n, OutputsBytes(tx.outputs));
    if data != null && at + n > data.Length {
      n := 0;
    }
  }

  lemma OutputsNone(outs: seq<Output>)
    ensures OutputsBytes(outs[..0]) == []
  {
  }

  lemma {:induction false} OutputsTake(outs: seq<Output>, i: nat)
    requires i < |outs|
    ensures OutputsBytes(outs[..i + 1]) == OutputsBytes(outs[..i]) + LE(outs[i].amount, 8) + Script(outs[i].script)
    decreases i
  {
    hide LE, Script;
    if i == 0 {
      assert outs[..1][1..] == [];
    } else {
      OutputsTake(outs[1..], i - 1);
      assert outs[1..][..i] == outs[..i + 1][1..] && outs[1..][..i - 1] == outs[..i][1..];
    }
  }

  lemma {:induction false} InputsTake(ins: seq<Input>, i: nat)
    requires i < |ins|
    ensures InputsBytes(ins[..i + 1]) == InputsBytes(ins[..i]) + InputBytes(ins[i])
    decreases i
  {
    hide InputBytes;
    if i == 0 {
      assert ins[..1][1..] == [];
    } else {
      InputsTake(ins[1..], i - 1);
      assert ins[1..][..i] == ins[..i + 1][1..] && ins[1..][..i - 1] == ins[..i][1..];
    }
  }

  /** Inputs have 32-byte hashes. */
  ghost predicate HashesOk(ins: seq<Input>) {
    forall i | 0 <= i < |ins| :: |ins[i].txHash| == 32
  }

  lemma InputDataIs(i: Input)
    ensures InputBytes(i) ==
            if i.signature.Some? then InputData(i, i.signature.value, 0) else InputData(i, i.script, i.amount)
  {
  }

  lemma InputsNone(cap: Option<nat>, at: nat, ins: seq<Input>)
    ensures InputsBytes(ins[..0]) == [] && InputsReach(cap, at, ins[..0]) == at
  {
  }

  /** The count of inputs and the inputs. */
  method InputsData(tx: Tx, data: array?<Byte>, at: nat) returns (n: nat)
    requires HashesOk(tx.inputs)
    modifies data
    ensures Progress(data, old(Contents(data)), Contents(data), at, n, VarInt(|tx.inputs|) + InputsBytes(tx.inputs))
    ensures at + n == InputsReach(Cap(data), at + VarIntReach(Cap(data), at, |tx.inputs|), tx.inputs)
  {
    hide VarInt, At, Kept, InputBytes, InputData, Progress, InputReach, InputsBytes, InputsReach;
    ghost var was := Contents(data);
    Begin(data, at);
    n := VarIntSet(data, at, |tx.inputs|);
    Advance(data, was, was, at, 0, [], n, VarInt(|tx.inputs|));
    ghost var head := VarInt(|tx.inputs|);
    ghost var start := at + n;
    InputsNone(Cap(data), start, tx.inputs);
    assert [] + head == head && head + [] == head;
    for i := 0 to |tx.inputs|
      invariant Progress(data, was, Contents(data), at, n, head + InputsBytes(tx.inputs[..i]))
      invariant at + n == InputsReach(Cap(data), start, tx.inputs[..i])
    {
      InputsReachTake(Cap(data), start, tx.inputs, i);
      var input := tx.inputs[i];
      ghost var mid := Contents(data);
      InputDataIs(input);
      var len;
      if input.signature.None? {
        len := TxInputData(input, input.script, input.amount, data, at + n);
      } else {
        len := TxInputData(input, input.signature.value, 0, data, at + n);
      }
      AdvanceWith(data, was, mid, at, n, head + InputsBytes(tx.inputs[..i]), len, InputBytes(input));
      InputsTake(tx.inputs, i);
      assert (head + InputsBytes(tx.inputs[..i])) + InputBytes(input) == head + InputsBytes(tx.inputs[..i + 1]);
      n := n + len;
    }
    assert tx.inputs[..|tx.inputs|] == tx.inputs;
  }

  /** The whole transaction, under any signature hash type. */
  method TransactionData(tx: Tx, data: array?<Byte>, hashType: nat) returns (n: nat)
    requires HashesOk(tx.inputs)
    modifies data
    ensures data != null ==> n <= data.Length
    ensures match DataBytes(tx, hashType)
            case None => n == 0 && Contents(data) == old(Contents(data))
            case Some(b) => Progress(data, old(Contents(data)), Contents(data), 0, n, b)
    ensures DataBytes(tx, hashType).Some? && hashType % 32 !in {SIGHASH_NONE, SIGHASH_SINGLE} ==>
              n == Reported(Cap(data), tx)
  {
    hide LE, VarInt, At, Kept, InputsBytes, OutputsBytes, Progress, InputsReach, OutputsReach, VarIntReach;
    if hashType / SIGHASH_FORKID % 2 == 1 || hashType / SIGHASH_ANYONECANPAY % 2 == 1 {
      return 0;
    }
    ghost var was := Contents(data);
    Begin(data, 0);
    Put(data, 0, LE(tx.version, 4));
    Advance(data, was, was, 0, 0, [], 4, LE(tx.version, 4));
    ghost var done := LE(tx.version, 4);
    assert [] + done == done;
    ghost var mid := Contents(data);
    n := InputsData(tx, data, 4);
    AdvanceWith(data, was, mid, 0, 4, done, n, VarInt(|tx.inputs|) + InputsBytes(tx.inputs));
    done := done + (VarInt(|tx.inputs|) + InputsBytes(tx.inputs));
    n := 4 + n;
    mid := Contents(data);
    var len;
    if hashType % 32 in {SIGHASH_NONE, SIGHASH_SINGLE} {
      len := VarIntSet(data, n, 0);
      Advance(data, was, mid, 0, n, done, len, VarInt(0));
      done := done + VarInt(0);
    } else {
      len := OutputsData(tx, data, n);
      AdvanceWith(data, was, mid, 0, n, done, len, VarInt(|tx.outputs|) + OutputsBytes(tx.outputs));
      done := done + (VarInt(|tx.outputs|) + OutputsBytes(tx.outputs));
    }
    n := n + len;
    mid := Contents(data);
    Put(data, n, LE(tx.lockTime, 4));
    Advance(data, was, mid, 0, n, done, 4, LE(tx.lockTime, 4));
    done := done + LE(tx.lockTime, 4);
    n := n + 4;
    Refuse(data, was, 0, n, done);
    if data != null && n > data.Length {
      n := 0;
    }
  }

  method OutputsData(tx: Tx, data: array?<Byte>, at: nat) returns (n: nat)
    modifies data
    ensures Progress(data, old(Contents(data)), Contents(data), at, n, VarInt(|tx.outputs|) + OutputsBytes(tx.outputs))
    ensures n == VarIntReach(Cap(data), at, |tx.outputs|) +
                 OutputsReach(Cap(data), at + VarIntReach(Cap(data), at, |tx.outputs|), tx.outputs)
  {
    hide VarInt, At, Kept, OutputsBytes, Progress, OutputsReach;
    ghost var was := Contents(data);
    Begin(data, at);
    n := VarIntSet(data, at, |tx.outputs|);
    Advance(data, was, was, at, 0, [], n, VarInt(|tx.outputs|));
    assert [] + VarInt(|tx.outputs|) == VarInt(|tx.outputs|);
    ghost var mid := Contents(data);
    var len := TransactionOutputData(tx, data, at + n);
    AdvanceWith(data, was, mid, at, n, VarInt(|tx.outputs|), len, OutputsBytes(tx.outputs));
    n := n + len;
  }

  /** Serializing: the length without a buffer, and the bytes in any buffer that holds them.  The number
      reported is the length needed if and only if there is no buffer or it holds them. */
  method Serialize(tx: Tx, buf: array?<Byte>) returns (n: nat)
    requires HashesOk(tx.inputs)
    modifies buf
    ensures n == |TxBytes(tx)| <==> buf == null || buf.Length >= |TxBytes(tx)|
    ensures buf != null ==> n <= buf.Length && (n == |TxBytes(tx)| ==> buf[..n] == TxBytes(tx))
    ensures n == Reported(Cap(buf), tx)
  {
    SignedIsSerialized(tx);
    hide TxBytes, DataBytes, Reported;
    n := TransactionData(tx, buf, SIGHASH_ALL);
  }

  /** A number other than zero can be reported for a buffer that is too small: a transaction of 51 bytes, whose
      input does not fit ten bytes and is left out, and whose other fields fill them. */
  lemma ReportedForTooSmall()
    ensures var tx := Tx(1, [Input(seq(32, _ => 0), 0, [], 0, Some([]), 0)], [], 0);
            HashesOk(tx.inputs) && |TxBytes(tx)| == 51 && Reported(Some(10), tx) == 10
  {
    var tx := Tx(1, [Input(seq(32, _ => 0), 0, [], 0, Some([]), 0)], [], 0);
    InputLength(tx.inputs[0]);
    hide TxBytes, Reported, InputBytes;
    TooSmall(tx);
  }

  lemma TooSmall(tx: Tx)
    requires |tx.inputs| == 1 && |InputBytes(tx.inputs[0])| == 41 && tx.outputs == []
    ensures |TxBytes(tx)| == 51 && Reported(Some(10), tx) == 10
  {
    hide InputBytes;
    var ins := tx.inputs;
    assert ins[..0] == [] && ins[..1] == ins;
    InputsReachTake(Some(10), 5, ins, 0);
    InputsTake(ins, 0);
    TxLength(tx);
  }

  /** How many of the inputs are unsigned, and the bytes they are written with. */
  function UnsignedCount(ins: seq<Input>): nat {
    if ins == [] then 0 else UnsignedCount(ins[..|ins| - 1]) + if ins[|ins| - 1].signature.None? then 1 else 0
  }

  function UnsignedLength(ins: seq<Input>): nat {
    if ins == [] then 0
    else UnsignedLength(ins[..|ins| - 1]) + if ins[|ins| - 1].signature.None? then |InputBytes(ins[|ins| - 1])| else 0
  }

  lemma UnsignedTake(ins: seq<Input>, i: nat)
    requires i < |ins|
    ensures UnsignedCount(ins[..i + 1]) == UnsignedCount(ins[..i]) + if ins[i].signature.None? then 1 else 0
    ensures UnsignedLength(ins[..i + 1]) ==
      UnsignedLength(ins[..i]) + if ins[i].signature.None? then |InputBytes(ins[i])| else 0
  {
    hide InputBytes;
    assert ins[..i + 1][..i] == ins[..i];
  }

  lemma {:induction false} NoneUnsigned(ins: seq<Input>)
    requires AllSigned(ins)
    ensures UnsignedCount(ins) == 0 && UnsignedLength(ins) == 0
  {
    if ins != [] { NoneUnsigned(ins[..|ins| - 1]); }
  }

  /** The size in bytes, with 148 in place of what each unsigned input is written with. */
  method TransactionSize(tx: Tx) returns (size: nat)
    requires HashesOk(tx.inputs)
    ensures size + UnsignedLength(tx.inputs) == |TxBytes(tx)| + 148 * UnsignedCount(tx.inputs)
    ensures AllSigned(tx.inputs) ==> size == |TxBytes(tx)|
  {
    hide LE, InputBytes, OutputBytes, VarInt, Script, InputsBytes, OutputsBytes, UnsignedCount, UnsignedLength;
    size := 8 + VarIntSize(|tx.inputs|) + VarIntSize(|tx.outputs|);
    ghost var head := size;
    SizesNone(tx);
    for i := 0 to |tx.inputs|
      invariant size + UnsignedLength(tx.inputs[..i]) ==
                head + |InputsBytes(tx.inputs[..i])| + 148 * UnsignedCount(tx.inputs[..i])
    {
      InputsTake(tx.inputs, i);
      UnsignedTake(tx.inputs, i);
      if tx.inputs[i].signature.Some? {
        InputLength(tx.inputs[i]);
        var sig := tx.inputs[i].signature.value;
        size := size + 32 + 4 + VarIntSize(|sig|) + |sig| + 4;
      } else {
        size := size + 148;
      }
    }
    assert tx.inputs[..|tx.inputs|] == tx.inputs;
    ghost var body := size;
    for i := 0 to |tx.outputs|
      invariant size == body + |OutputsBytes(tx.outputs[..i])|
    {
      OutputsTake(tx.outputs, i);
      size := size + 8 + VarIntSize(|tx.outputs[i].script|) + |tx.outputs[i].script|;
    }
    assert tx.outputs[..|tx.outputs|] == tx.outputs;
    TxLength(tx);
    if AllSigned(tx.inputs) { NoneUnsigned(tx.inputs); }
  }

  lemma SizesNone(tx: Tx)
    ensures UnsignedCount(tx.inputs[..0]) == 0 && UnsignedLength(tx.inputs[..0]) == 0
    ensures InputsBytes(tx.inputs[..0]) == [] && OutputsBytes(tx.outputs[..0]) == []
  {
  }

  lemma InputLength(i: Input)
    requires i.signature.Some? && |i.txHash| == 32
    ensures |InputBytes(i)| == 32 + 4 + VarIntSize(|i.signature.value|) + |i.signature.value| + 4
  {
  }

  lemma TxLength(tx: Tx)
    ensures |TxBytes(tx)| ==
      8 + VarIntSize(|tx.inputs|) + VarIntSize(|tx.outputs|) + |InputsBytes(tx.inputs)| + |OutputsBytes(tx.outputs)|
  {
    hide InputsBytes, OutputsBytes, LE, VarInt;
  }

  // -------------------------------------------------------------------- parsing

  method ParseInputs(template: Template, buf: Bytes, start: nat, count: nat) returns (r: Read<seq<Input>>)
    ensures r == ReadInputs(template, buf, start, count)
  {
    hide ReadInput;
    var ins, off, isSigned, i := [], start, true, 0;
    assert ins + ReadInputs(template, buf, start, count).value == ReadInputs(template, buf, start, count).value;
    while off <= |buf| && i < count
      invariant 0 <= i <= count
      invariant var rest := ReadInputs(template, buf, off, count - i);
                ReadInputs(template, buf, start, count) == Read(ins + rest.value, rest.off, isSigned && rest.isSigned)
    {
      ghost var rest := ReadInputs(template, buf, off, count - i);
      var next := ReadInput(template, buf, off);
      ghost var after := ReadInputs(template, buf, next.off, count - i - 1);
      assert rest == Read([next.value] + after.value, after.off, next.isSigned && after.isSigned);
      assert ins + rest.value == (ins + [next.value]) + after.value;
      ins, off, isSigned, i := ins + [next.value], next.off, isSigned && next.isSigned, i + 1;
    }
    assert ins + [] == ins;
    r := Read(ins, off, isSigned);
  }

  method ParseOutputs(buf: Bytes, start: nat, count: nat) returns (r: Read<seq<Output>>)
    ensures r == ReadOutputs(buf, start, count)
  {
    hide ReadOutput;
    var outs, off, i := [], start, 0;
    assert outs + ReadOutputs(buf, start, count).value == ReadOutputs(buf, start, count).value;
    while off <= |buf| && i < count
      invariant 0 <= i <= count
      invariant var rest := ReadOutputs(buf, off, count - i);
                ReadOutputs(buf, start, count) == Read(outs + rest.value, rest.off, true)
    {
      ghost var rest := ReadOutputs(buf, off, count - i);
      var next := ReadOutput(buf, off);
      ghost var after := ReadOutputs(buf, next.off, count - i - 1);
      assert rest == Read([next.value] + after.value, after.off, true);
      assert outs + rest.value == (outs + [next.value]) + after.value;
      outs, off, i := outs + [next.value], next.off, i + 1;
    }
    assert outs + [] == outs;
    r := Read(outs, off, true);
  }

  method Parse(template: Template, buf: Bytes) returns (r: Option<Parsed>)
    ensures r == ParsedFrom(template, buf)
  {
    hide ReadLE, ReadVarInt, ReadInputs, ReadOutputs;
    var version := ReadLE(buf, 0, 4);
    var (inCount, len) := ReadVarInt(buf, 4);
    var ins := ParseInputs(template, buf, 4 + len, inCount);
    var (outCount, len') := ReadVarInt(buf, ins.off);
    var outs := ParseOutputs(buf, ins.off + len', outCount);
    var lockTime := ReadLE(buf, outs.off, 4);
    var off := outs.off + 4;
    if inCount == 0 || off > |buf| {
      return None;
    }
    var hashed := if ins.isSigned then Some(buf[..off]) else None;
    return Some(Parsed(Tx(version, ins.value, outs.value, lockTime), hashed));
  }

  /** Serializing into a buffer of the reported length and parsing it gives the transaction back if and only
      if every input is recognisable; a fully signed one without template scripts always is. */
  method SerializeAndParse(template: Template, tx: Tx) returns (r: Option<Parsed>)
    requires TxFits(tx)
    ensures r == Some(Restored(tx)) <==> AllRecognisable(template, tx.inputs)
  {
    assert HashesOk(tx.inputs) by {
      assert forall i | 0 <= i < |tx.inputs| :: tx.inputs[i] in tx.inputs;
    }
    hide TxFits, TxBytes, ParsedFrom, Restored, AllRecognisable, HashesOk;
    var len := Serialize(tx, null);
    var buf := new Byte[len](_ => 0);
    var n := Serialize(tx, buf);
    assert buf[..] == buf[..n] == TxBytes(tx);
    ParseExactly(template, tx);
    r := Parse(template, buf[..]);
  }
}
