/** What the lines of an export say: which key holds which part of a record. */
module ExportLaws {
  import opened Options
  import opened Text
  import opened JsonText
  import opened Exporter

  /** The object holds this value under the key. */
  ghost predicate Holds(o: Object, key: string, v: Value) { (key, v) in o }

  /** A text under a key, cut to the bound; no text is null. */
  ghost predicate HoldsText(o: Object, key: string, text: Option<string>, m: nat) {
    Holds(o, key, match text case None => NullValue case Some(t) => StringValue(Cut(t, m)))
  }

  ghost predicate HoldsAddress(o: Object, key: string, a: Option<nat>, m: nat) {
    HoldsText(o, key, match a case None => None case Some(n) => Some(Decimal(n)), m)
  }

  /** Which value each key of a function's line holds, decompiled or not. */
  lemma FunctionMeaning(entry: nat, name: string, namespace: string, signature: string, size: nat, code: string, error: Option<string>, m: nat)
    ensures var o := Members(FunctionRecord(entry, name, namespace, signature, size, Completed(code)), m);
      && |o| == 9 && Holds(o, "Kind", StringValue("Function")) && HoldsAddress(o, "Address", Some(entry), m)
      && HoldsText(o, "Name", Some(name), m) && HoldsText(o, "Namespace", Some(namespace), m) && HoldsText(o, "Signature", Some(signature), m)
      && Holds(o, "Size", NumberValue(size)) && HoldsText(o, "DecompileState", Some("complete"), m)
      && HoldsText(o, "DecompiledCode", Some(code), m) && HoldsText(o, "DecompileError", None, m)
    ensures var o := Members(FunctionRecord(entry, name, namespace, signature, size, Failed(error)), m);
      && |o| == 9 && Holds(o, "Kind", StringValue("Function")) && HoldsAddress(o, "Address", Some(entry), m)
      && HoldsText(o, "Name", Some(name), m) && HoldsText(o, "Namespace", Some(namespace), m) && HoldsText(o, "Signature", Some(signature), m)
      && Holds(o, "Size", NumberValue(size)) && HoldsText(o, "DecompileState", Some("failed"), m)
      && HoldsText(o, "DecompiledCode", None, m) && HoldsText(o, "DecompileError", error, m)
  {
    NineIn(Members(FunctionRecord(entry, name, namespace, signature, size, Completed(code)), m));
    NineIn(Members(FunctionRecord(entry, name, namespace, signature, size, Failed(error)), m));
  }

  lemma NineIn(o: Object)
    requires |o| == 9
    ensures o[0] in o && o[1] in o && o[2] in o && o[3] in o && o[4] in o && o[5] in o && o[6] in o && o[7] in o && o[8] in o
  {
  }

  /** Which value each key of the other four kinds of lines holds. */
  lemma MembersMeaning(owner: nat, a: Option<nat>, b: Option<nat>, s: string, t: string, name: Option<string>, m: nat)
    ensures var o := Members(InstructionRecord(owner, a, s, t), m);
      && |o| == 5 && Holds(o, "Kind", StringValue("Instruction")) && HoldsAddress(o, "FunctionAddress", Some(owner), m)
      && HoldsAddress(o, "Address", a, m) && HoldsText(o, "Mnemonic", Some(s), m) && HoldsText(o, "Operands", Some(t), m)
    ensures var o := Members(CallRecord(owner, a, b, name), m);
      && |o| == 5 && Holds(o, "Kind", StringValue("CallReference")) && HoldsAddress(o, "CallerAddress", Some(owner), m)
      && HoldsAddress(o, "CallsiteAddress", a, m) && HoldsAddress(o, "CalleeAddress", b, m) && HoldsText(o, "CalleeName", name, m)
    ensures var o := Members(BlockRecord(owner, a, b), m);
      && |o| == 4 && Holds(o, "Kind", StringValue("BasicBlock")) && HoldsAddress(o, "FunctionAddress", Some(owner), m)
      && HoldsAddress(o, "Address", a, m) && HoldsAddress(o, "EndAddress", b, m)
    ensures var o := Members(EdgeRecord(owner, a, b, s), m);
      && |o| == 5 && Holds(o, "Kind", StringValue("BlockReference")) && HoldsAddress(o, "FunctionAddress", Some(owner), m)
      && HoldsAddress(o, "SourceAddress", a, m) && HoldsAddress(o, "TargetAddress", b, m) && HoldsText(o, "EdgeType", Some(s), m)
  {
    var i, c, k, e := Members(InstructionRecord(owner, a, s, t), m), Members(CallRecord(owner, a, b, name), m),
      Members(BlockRecord(owner, a, b), m), Members(EdgeRecord(owner, a, b, s), m);
    assert forall n :: 0 <= n < 5 ==> i[n] in i && c[n] in c && e[n] in e;
    assert forall n :: 0 <= n < 4 ==> k[n] in k;
  }
}
