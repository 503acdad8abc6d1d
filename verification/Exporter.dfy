/** The bounded export of a program's functions, instructions, calls, blocks and edges. */
module Exporter {
  import opened Options
  import opened Text
  import opened JsonText

  datatype Decompiled = Completed(code: string) | Failed(message: Option<string>)

  datatype Record =
    | FunctionRecord(entry: nat, name: string, namespace: string, signature: string, size: nat, decompiled: Decompiled)
    | InstructionRecord(owner: nat, address: Option<nat>, mnemonic: string, operands: string)
    | CallRecord(caller: nat, callsite: Option<nat>, callee: Option<nat>, calleeName: Option<string>)
    | BlockRecord(owner: nat, start: Option<nat>, end: Option<nat>)
    | EdgeRecord(owner: nat, source: Option<nat>, target: Option<nat>, edgeType: string)

  function Bounded(s: string, maxString: nat): Value { StringValue(Cut(s, maxString)) }

  function Maybe(s: Option<string>, maxString: nat): Value {
    if s.None? then NullValue else Bounded(s.value, maxString)
  }

  function Address(a: Option<nat>, maxString: nat): Value {
    if a.None? then NullValue else Bounded(Decimal(a.value), maxString)
  }

  /** The members of one line; the kind is a literal, every other text is cut. */
  function Members(r: Record, m: nat): (o: Object)
    ensures o != []
  {
    match r
    case FunctionRecord(address, name, namespace, signature, size, decompiled) =>
      [("Kind", StringValue("Function")), ("Address", Bounded(Decimal(address), m)), ("Name", Bounded(name, m)),
       ("Namespace", Bounded(namespace, m)), ("Signature", Bounded(signature, m)), ("Size", NumberValue(size)),
       ("DecompileState", Bounded(if decompiled.Completed? then "complete" else "failed", m)),
       ("DecompiledCode", if decompiled.Completed? then Bounded(decompiled.code, m) else NullValue),
       ("DecompileError", if decompiled.Completed? then NullValue else Maybe(decompiled.message, m))]
    case InstructionRecord(f, address, mnemonic, operands) =>
      [("Kind", StringValue("Instruction")), ("FunctionAddress", Bounded(Decimal(f), m)), ("Address", Address(address, m)),
       ("Mnemonic", Bounded(mnemonic, m)), ("Operands", Bounded(operands, m))]
    case CallRecord(caller, callsite, callee, calleeName) =>
      [("Kind", StringValue("CallReference")), ("CallerAddress", Bounded(Decimal(caller), m)), ("CallsiteAddress", Address(callsite, m)),
       ("CalleeAddress", Address(callee, m)), ("CalleeName", Maybe(calleeName, m))]
    case BlockRecord(f, start, end) =>
      [("Kind", StringValue("BasicBlock")), ("FunctionAddress", Bounded(Decimal(f), m)), ("Address", Address(start, m)),
       ("EndAddress", Address(end, m))]
    case EdgeRecord(f, source, target, edgeType) =>
      [("Kind", StringValue("BlockReference")), ("FunctionAddress", Bounded(Decimal(f), m)), ("SourceAddress", Address(source, m)),
       ("TargetAddress", Address(target, m)), ("EdgeType", Bounded(edgeType, m))]
  }

  function Line(r: Record, maxString: nat): string { PrintObject(Members(r, maxString)) }

  // ------------------------------------------------------ unbounded traversal

  datatype Reference = Reference(isCall: bool, record: Record)

  datatype Instruction = Instruction(record: Record, references: seq<Reference>)

  datatype Block = Block(record: Record, edges: seq<Record>)

  datatype FunctionNode = FunctionNode(record: Record, instructions: seq<Instruction>, blocks: seq<Block>)

  function CallRecords(refs: seq<Reference>): seq<Record> {
    if refs == [] then []
    else CallRecords(refs[..|refs| - 1]) + if refs[|refs| - 1].isCall then [refs[|refs| - 1].record] else []
  }

  function InstructionRecords(xs: seq<Instruction>): seq<Record> {
    if xs == [] then []
    else InstructionRecords(xs[..|xs| - 1]) + ([xs[|xs| - 1].record] + CallRecords(xs[|xs| - 1].references))
  }

  function BlockRecords(xs: seq<Block>): seq<Record> {
    if xs == [] then [] else BlockRecords(xs[..|xs| - 1]) + ([xs[|xs| - 1].record] + xs[|xs| - 1].edges)
  }

  function FunctionRecords(f: FunctionNode): seq<Record> {
    [f.record] + InstructionRecords(f.instructions) + BlockRecords(f.blocks)
  }

  /** Everything there is to export, in order. */
  function AllRecords(fs: seq<FunctionNode>): seq<Record> {
    if fs == [] then [] else AllRecords(fs[..|fs| - 1]) + FunctionRecords(fs[|fs| - 1])
  }

  function Take<T>(xs: seq<T>, n: nat): seq<T> { if |xs| <= n then xs else xs[..n] }

  function LinesOf(records: seq<Record>, maxString: nat): seq<string> {
    seq(|records|, i requires 0 <= i < |records| => Line(records[i], maxString))
  }

  /** The text of an export: every record is printed as one line. */
  function FileText(records: seq<Record>, maxString: nat): string { Unlines(LinesOf(records, maxString)) }

  // ---------------------------------------------------------- bounded export

  class Exporter {
    var emitted: nat
    const maxRecords: nat
    const maxString: nat
    var written: seq<Record>       // printed so far, one line each
    var cancelAfter: Option<nat>   // polls still answered "not cancelled"; None: never cancelled

    constructor (records: nat, chars: nat, cancel: Option<nat>)
      requires records >= 1 && chars >= 1
      ensures emitted == 0 && written == [] && maxRecords == records && maxString == chars && cancelAfter == cancel
    {
      emitted, written, maxRecords, maxString, cancelAfter := 0, [], records, chars, cancel;
    }

    /** The traversal has passed exactly the records `done`, and the file holds the first of them. */
    ghost predicate Wrote(done: seq<Record>)
      reads this
    {
      written == Take(done, maxRecords) && emitted == |written|
    }

    /** No further record will be written. */
    ghost predicate Stopped()
      reads this
    {
      emitted == maxRecords || cancelAfter == Some(0)
    }

    /** Progress from `before` along the records of a part: all of it, unless stopped on the way. */
    ghost predicate Advanced(before: seq<Record>, done: seq<Record>, part: seq<Record>)
      reads this
    {
      Wrote(done) && before <= done <= before + part && (done == before + part || Stopped())
    }

    method Emit(r: Record, ghost before: seq<Record>)
      requires Wrote(before)
      modifies this`emitted, this`written
      ensures Wrote(before + [r])
    {
      if emitted >= maxRecords { return; }
      written := written + [r];
      emitted := emitted + 1;
    }

    /** Polling the monitor; once cancelled it stays cancelled. */
    method IsCancelled() returns (cancelled: bool)
      modifies this`cancelAfter
      ensures cancelled ==> cancelAfter == Some(0)
      ensures old(cancelAfter) == None ==> !cancelled && cancelAfter == None
      ensures old(cancelAfter) == Some(0) ==> cancelled
    {
      if cancelAfter.None? { return false; }
      if cancelAfter.value == 0 { return true; }
      cancelAfter := Some(cancelAfter.value - 1);
      return false;
    }

    method ExportReferences(refs: seq<Reference>, ghost before: seq<Record>) returns (ghost done: seq<Record>)
      requires Wrote(before)
      modifies this`emitted, this`written
      ensures Advanced(before, done, CallRecords(refs))
    {
      done := before;
      for i := 0 to |refs|
        invariant Wrote(done) && done == before + CallRecords(refs[..i])
      {
        assert refs[..i + 1][..i] == refs[..i];
        if emitted >= maxRecords {
          CallPrefix(refs, i);
          return;
        }
        if refs[i].isCall {
          Emit(refs[i].record, done);
          done := done + [refs[i].record];
        }
      }
      assert refs[..|refs|] == refs;
    }

    method ExportInstructions(xs: seq<Instruction>, ghost before: seq<Record>) returns (ghost done: seq<Record>)
      requires Wrote(before)
      modifies this`emitted, this`written, this`cancelAfter
      ensures Advanced(before, done, InstructionRecords(xs))
      ensures old(cancelAfter) == None ==> cancelAfter == None
      ensures old(cancelAfter) == Some(0) ==> cancelAfter == Some(0)
    {
      done := before;
      for i := 0 to |xs|
        invariant old(cancelAfter) == None ==> cancelAfter == None
        invariant old(cancelAfter) == Some(0) ==> cancelAfter == Some(0)
        invariant Advanced(before, done, InstructionRecords(xs[..i]))
      {
        InstructionPrefix(xs, i);
        var cancelled := IsCancelled();
        if cancelled || emitted >= maxRecords {
          Widen(before, done, InstructionRecords(xs[..i]), InstructionRecords(xs));
          return;
        }
        assert done == before + InstructionRecords(xs[..i]);
        done := ExportInstruction(xs[i], done);
        Onward(before, InstructionRecords(xs[..i]), done, [xs[i].record] + CallRecords(xs[i].references));
      }
      assert xs[..|xs|] == xs;
    }

    method ExportInstruction(x: Instruction, ghost before: seq<Record>) returns (ghost done: seq<Record>)
      requires Wrote(before)
      modifies this`emitted, this`written
      ensures Advanced(before, done, [x.record] + CallRecords(x.references))
    {
      Emit(x.record, before);
      done := ExportReferences(x.references, before + [x.record]);
      Onward(before, [x.record], done, CallRecords(x.references));
    }

    method ExportBlocks(xs: seq<Block>, ghost before: seq<Record>) returns (ghost done: seq<Record>)
      requires Wrote(before)
      modifies this`emitted, this`written, this`cancelAfter
      ensures Advanced(before, done, BlockRecords(xs))
      ensures old(cancelAfter) == None ==> cancelAfter == None
      ensures old(cancelAfter) == Some(0) ==> cancelAfter == Some(0)
      ensures old(Stopped()) ==> done == before
    {
      done := before;
      for i := 0 to |xs|
        invariant old(cancelAfter) == None ==> cancelAfter == None
        invariant old(cancelAfter) == Some(0) ==> cancelAfter == Some(0)
        invariant old(Stopped()) ==> Stopped() && done == before
        invariant Advanced(before, done, BlockRecords(xs[..i]))
      {
        BlockPrefix(xs, i);
        var cancelled := IsCancelled();
        if cancelled || emitted >= maxRecords {
          Widen(before, done, BlockRecords(xs[..i]), BlockRecords(xs));
          return;
        }
        assert done == before + BlockRecords(xs[..i]);
        done := ExportBlock(xs[i], done);
        Onward(before, BlockRecords(xs[..i]), done, [xs[i].record] + xs[i].edges);
      }
      assert xs[..|xs|] == xs;
    }

    method ExportBlock(x: Block, ghost before: seq<Record>) returns (ghost done: seq<Record>)
      requires Wrote(before)
      modifies this`emitted, this`written
      ensures Advanced(before, done, [x.record] + x.edges)
    {
      Emit(x.record, before);
      done := ExportEdges(x.edges, before + [x.record]);
      Onward(before, [x.record], done, x.edges);
    }

    /** One function: its record, its instructions with their calls, then its blocks with their edges. */
    method ExportFunction(f: FunctionNode, ghost before: seq<Record>) returns (ghost done: seq<Record>)
      requires Wrote(before)
      modifies this`emitted, this`written, this`cancelAfter
      ensures Advanced(before, done, FunctionRecords(f))
      ensures old(cancelAfter) == None ==> cancelAfter == None
    {
      Emit(f.record, before);
      done := ExportInstructions(f.instructions, before + [f.record]);
      Onward(before, [f.record], done, InstructionRecords(f.instructions));
      ghost var first := [f.record] + InstructionRecords(f.instructions);
      ghost var middle := done;
      ghost var complete := done == before + first;
      ghost var stopped := Stopped();
      done := ExportBlocks(f.blocks, middle);
      if complete {
        Onward(before, first, done, BlockRecords(f.blocks));
      } else {
        assert stopped && done == middle;
        Widen(before, done, first, first + BlockRecords(f.blocks));
      }
    }

    method ExportFunctions(fs: seq<FunctionNode>, ghost before: seq<Record>) returns (ghost done: seq<Record>)
      requires Wrote(before)
      modifies this`emitted, this`written, this`cancelAfter
      ensures Advanced(before, done, AllRecords(fs))
      ensures old(cancelAfter) == None ==> cancelAfter == None
    {
      done := before;
      for i := 0 to |fs|
        invariant old(cancelAfter) == None ==> cancelAfter == None
        invariant Advanced(before, done, AllRecords(fs[..i]))
      {
        FunctionPrefix(fs, i);
        var cancelled := IsCancelled();
        if cancelled || emitted >= maxRecords {
          Widen(before, done, AllRecords(fs[..i]), AllRecords(fs));
          return;
        }
        assert done == before + AllRecords(fs[..i]);
        done := ExportFunction(fs[i], done);
        Onward(before, AllRecords(fs[..i]), done, FunctionRecords(fs[i]));
      }
      assert fs[..|fs|] == fs;
    }

    /** The whole export: a prefix of the bounded traversal, and all of it without cancellation. */
    method Run(fs: seq<FunctionNode>)
      requires written == [] && emitted == 0
      modifies this`emitted, this`written, this`cancelAfter
      ensures old(cancelAfter) == None ==> written == Take(AllRecords(fs), maxRecords)
      ensures written <= Take(AllRecords(fs), maxRecords)
    {
      ghost var done := ExportFunctions(fs, []);
      PrefixOfAll(done, AllRecords(fs));
    }

    lemma PrefixOfAll(done: seq<Record>, all: seq<Record>)
      requires Advanced([], done, all)
      ensures written <= Take(all, maxRecords)
      ensures cancelAfter == None ==> written == Take(all, maxRecords)
    {
      assert [] + all == all;
    }

    /** Progress along one part and then the next is progress along both. */
    lemma Onward(before: seq<Record>, first: seq<Record>, done: seq<Record>, second: seq<Record>)
      requires Advanced(before + first, done, second)
      ensures Advanced(before, done, first + second)
    {
      assert before + first + second == before + (first + second);
      assert before <= before + first;
    }

    lemma Widen(before: seq<Record>, done: seq<Record>, part: seq<Record>, whole: seq<Record>)
      requires Advanced(before, done, part) && Stopped() && part <= whole
      ensures Advanced(before, done, whole)
    {
      assert before + part <= before + whole;
    }

    method ExportEdges(edges: seq<Record>, ghost before: seq<Record>) returns (ghost done: seq<Record>)
      requires Wrote(before)
      modifies this`emitted, this`written
      ensures Advanced(before, done, edges)
    {
      done := before;
      for i := 0 to |edges|
        invariant Wrote(done) && done == before + edges[..i]
      {
        if emitted >= maxRecords { return; }
        Emit(edges[i], done);
        done := done + [edges[i]];
      }
    }
  }

  lemma {:induction false} CallPrefix(refs: seq<Reference>, k: nat)
    requires k <= |refs|
    ensures CallRecords(refs[..k]) <= CallRecords(refs)
    decreases |refs| - k
  {
    if k < |refs| {
      CallPrefix(refs, k + 1);
      assert refs[..k + 1][..k] == refs[..k];
    } else {
      assert refs[..k] == refs;
    }
  }

  lemma {:induction false} InstructionPrefix(xs: seq<Instruction>, k: nat)
    requires k <= |xs|
    ensures InstructionRecords(xs[..k]) <= InstructionRecords(xs)
    ensures k < |xs| ==> InstructionRecords(xs[..k + 1]) == InstructionRecords(xs[..k]) + ([xs[k].record] + CallRecords(xs[k].references))
    decreases |xs| - k
  {
    if k < |xs| {
      InstructionPrefix(xs, k + 1);
      assert xs[..k + 1][..k] == xs[..k];
    } else {
      assert xs[..k] == xs;
    }
  }

  lemma {:induction false} BlockPrefix(xs: seq<Block>, k: nat)
    requires k <= |xs|
    ensures BlockRecords(xs[..k]) <= BlockRecords(xs)
    ensures k < |xs| ==> BlockRecords(xs[..k + 1]) == BlockRecords(xs[..k]) + ([xs[k].record] + xs[k].edges)
    decreases |xs| - k
  {
    if k < |xs| {
      BlockPrefix(xs, k + 1);
      assert xs[..k + 1][..k] == xs[..k];
    } else {
      assert xs[..k] == xs;
    }
  }

  lemma {:induction false} FunctionPrefix(fs: seq<FunctionNode>, k: nat)
    requires k <= |fs|
    ensures AllRecords(fs[..k]) <= AllRecords(fs)
    ensures k < |fs| ==> AllRecords(fs[..k + 1]) == AllRecords(fs[..k]) + FunctionRecords(fs[k])
    decreases |fs| - k
  {
    if k < |fs| {
      FunctionPrefix(fs, k + 1);
      assert fs[..k + 1][..k] == fs[..k];
      assert AllRecords(fs[..k + 1]) == AllRecords(fs[..k]) + FunctionRecords(fs[k]);
    } else {
      assert fs[..k] == fs;
    }
  }
}
