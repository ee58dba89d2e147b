/** CloudPickler.extract_code_globals (cloudpickle.py): which global names a code string uses. */
module CodeScan {
  import opened Seqs
  import opened Bytes

  /** The opcode numbers of the interpreter, from its `dis` module. */
  datatype Opcodes = Opcodes(haveArgument: int, extendedArg: int, globalOps: set<int>)
  {
    ghost predicate Valid()
    {
      0 <= haveArgument <= extendedArg < 256 && extendedArg !in globalOps
    }
  }

  /** An instruction, its argument given as 16-bit words, most significant first: all words but the
      last travel in EXTENDED_ARG prefixes. */
  datatype Instr = Plain(op: Byte) | WithArg(op: Byte, words: seq<int>)

  ghost predicate WellFormed(d: Opcodes, ins: Instr)
  {
    match ins
    case Plain(op) => op < d.haveArgument
    case WithArg(op, words) =>
      d.haveArgument <= op && op != d.extendedArg && words != [] && Words(words)
  }

  ghost predicate Words(words: seq<int>)
  {
    forall i :: 0 <= i < |words| ==> 0 <= words[i] < 0x1_0000
  }

  /** The number that words spell. */
  function Value(words: seq<int>): int
  {
    if words == [] then 0 else Value(words[..|words| - 1]) * 0x1_0000 + words[|words| - 1]
  }

  /** One 3-byte unit, argument in little-endian order. */
  function Unit(op: int, w: int): (r: seq<Byte>)
    requires 0 <= op < 256 && 0 <= w < 0x1_0000
    ensures |r| == 3
  {
    [op, w % 256, w / 256]
  }

  ghost function Prefixes(d: Opcodes, words: seq<int>): seq<Byte>
    requires d.Valid() && Words(words)
  {
    if words == [] then [] else Unit(d.extendedArg, words[0]) + Prefixes(d, words[1..])
  }

  ghost function Encode(d: Opcodes, ins: Instr): seq<Byte>
    requires d.Valid() && WellFormed(d, ins)
  {
    match ins
    case Plain(op) => [op]
    case WithArg(op, words) =>
      Prefixes(d, words[..|words| - 1]) + Unit(op, words[|words| - 1])
  }

  ghost predicate AllWellFormed(d: Opcodes, code: seq<Instr>)
  {
    forall i :: 0 <= i < |code| ==> WellFormed(d, code[i])
  }

  ghost function EncodeAll(d: Opcodes, code: seq<Instr>): seq<Byte>
    requires d.Valid() && AllWellFormed(d, code)
  {
    if code == [] then [] else Encode(d, code[0]) + EncodeAll(d, code[1..])
  }

  // ---------- The scan ----------

  /** The loop from a position on, with extended_arg = ext; None is the IndexError of a cut-off
      argument or of a name index that co_names lacks. */
  function Scan<N(==)>(d: Opcodes, code: seq<Byte>, ext: int, names: seq<N>): Option<set<N>>
  {
    if code == [] then Some({})
    else if code[0] < d.haveArgument then Scan(d, code[1..], ext, names)
    else if |code| < 3 then None
    else
      var op, oparg := code[0], code[1] as int + code[2] as int * 256 + ext;
      if op in d.globalOps && !(0 <= oparg < |names|) then None
      else
        With(if op in d.globalOps then {names[oparg]} else {},
             Scan(d, code[3..], if op == d.extendedArg then oparg * 0x1_0000 else 0, names))
  }

  /** The names found so far joined to those of the rest of the scan. */
  function With<N>(found: set<N>, rest: Option<set<N>>): Option<set<N>>
  {
    match rest
    case None => None
    case Some(out) => Some(found + out)
  }

  lemma WithWith<N>(a: set<N>, b: set<N>, rest: Option<set<N>>)
    ensures With({}, rest) == rest
    ensures With(a, With(b, rest)) == With(a + b, rest)
  {
    if rest.Some? {
      assert {} + rest.value == rest.value;
      assert a + (b + rest.value) == (a + b) + rest.value;
    }
  }

  method ExtractCodeGlobals<N(==)>(d: Opcodes, code: seq<Byte>, names: seq<N>) returns (r: Option<set<N>>)
    ensures r == Scan(d, code, 0, names)
  {
    var outNames: set<N> := {};
    var n, i, extendedArg := |code|, 0, 0;
    WithWith({}, {}, Scan(d, code, 0, names));
    while i < n
      invariant 0 <= i <= n && extendedArg >= 0
      invariant Scan(d, code, 0, names) == With(outNames, Scan(d, code[i..], extendedArg, names))
      decreases n - i
    {
      var op := code[i];
      ghost var rest := code[i..];
      i := i + 1;
      assert rest[1..] == code[i..];
      if op >= d.haveArgument {
        if i + 1 >= n {
          return None;
        }
        assert rest[3..] == code[i + 2..];
        ghost var found := outNames;
        var oparg: int := code[i] as int + code[i + 1] as int * 256 + extendedArg;
        extendedArg := 0;
        i := i + 2;
        if op == d.extendedArg {
          extendedArg := oparg * 0x1_0000;
        }
        if op in d.globalOps {
          if oparg >= |names| {
            return None;
          }
          outNames := outNames + {names[oparg]};
        }
        WithWith(found, if op in d.globalOps then {names[oparg]} else {}, Scan(d, code[i..], extendedArg, names));
        assert op !in d.globalOps ==> found + {} == outNames;
      }
    }
    assert code[n..] == [];
    r := Some(outNames);
  }

  // ---------- Exactness ----------

  /** The argument of a global instruction must index names. */
  ghost predicate Resolvable<N>(d: Opcodes, ins: Instr, names: seq<N>)
  {
    ins.WithArg? && ins.op in d.globalOps ==> 0 <= Value(ins.words) < |names|
  }

  ghost function NamesOf<N>(d: Opcodes, ins: Instr, names: seq<N>): set<N>
    requires Resolvable(d, ins, names)
  {
    if ins.WithArg? && ins.op in d.globalOps then {names[Value(ins.words)]} else {}
  }

  lemma UnitBytes(w: int)
    requires 0 <= w < 0x1_0000
    ensures w % 256 + w / 256 * 256 == w
  {
  }

  lemma {:induction false} ValueCons(w: int, words: seq<int>, acc: int)
    ensures Shifted(acc, [w] + words) == Shifted(acc * 0x1_0000 + w, words)
  {
    if words == [] {
      assert [w][..0] == [];
    } else {
      var n := |words| - 1;
      ValueCons(w, words[..n], acc);
      assert ([w] + words)[..n + 1] == [w] + words[..n];
    }
  }

  /** The words appended to an accumulated value. */
  function Shifted(acc: int, words: seq<int>): int
  {
    if words == [] then acc else Shifted(acc, words[..|words| - 1]) * 0x1_0000 + words[|words| - 1]
  }

  lemma {:induction false} ShiftedZero(words: seq<int>)
    ensures Shifted(0, words) == Value(words)
  {
    if words != [] {
      ShiftedZero(words[..|words| - 1]);
    }
  }

  /** Prefix units only accumulate into extended_arg. */
  lemma {:induction false} ScanPrefixes<N>(d: Opcodes, words: seq<int>, acc: int, tail: seq<Byte>, names: seq<N>)
    requires d.Valid() && Words(words)
    ensures Scan(d, Prefixes(d, words) + tail, acc * 0x1_0000, names) == Scan(d, tail, Shifted(acc, words) * 0x1_0000, names)
  {
    if words == [] {
      assert Prefixes(d, words) + tail == tail;
    } else {
      var rest := Prefixes(d, words[1..]) + tail;
      var code := Prefixes(d, words) + tail;
      assert code == Unit(d.extendedArg, words[0]) + rest;
      assert code[3..] == rest;
      UnitBytes(words[0]);
      ScanPrefixes(d, words[1..], acc * 0x1_0000 + words[0], tail, names);
      WithWith({}, {}, Scan(d, rest, (acc * 0x1_0000 + words[0]) * 0x1_0000, names));
      assert words == [words[0]] + words[1..];
      ValueCons(words[0], words[1..], acc);
    }
  }

  lemma ScanArgument<N>(d: Opcodes, op: Byte, w: int, ext: int, tail: seq<Byte>, names: seq<N>)
    requires d.Valid() && d.haveArgument <= op && op != d.extendedArg && 0 <= w < 0x1_0000
    ensures Scan(d, Unit(op, w) + tail, ext, names) ==
            if op in d.globalOps && !(0 <= w + ext < |names|) then None
            else With(if op in d.globalOps then {names[w + ext]} else {}, Scan(d, tail, 0, names))
  {
    var code := Unit(op, w) + tail;
    assert code[0] == op && code[3..] == tail;
    UnitBytes(w);
  }

  /** One instruction: the scan consumes exactly its bytes, records exactly its name, and leaves no
      extended argument behind. */
  lemma ScanOne<N>(d: Opcodes, ins: Instr, tail: seq<Byte>, names: seq<N>)
    requires d.Valid() && WellFormed(d, ins)
    ensures Scan(d, Encode(d, ins) + tail, 0, names) ==
            if !Resolvable(d, ins, names) then None
            else With(NamesOf(d, ins, names), Scan(d, tail, 0, names))
  {
    match ins
    case Plain(op) =>
      assert ([op] + tail)[1..] == tail;
      WithWith({}, {}, Scan(d, tail, 0, names));
    case WithArg(op, words) =>
      hide Scan, Prefixes, Unit;
      var n := |words| - 1;
      var last := Unit(op, words[n]) + tail;
      assert Encode(d, ins) + tail == Prefixes(d, words[..n]) + last;
      ScanPrefixes(d, words[..n], 0, last, names);
      ShiftedZero(words[..n]);
      ScanArgument(d, op, words[n], Value(words[..n]) * 0x1_0000, tail, names);
  }

  /** Every name used, over the whole code. */
  ghost function AllNames<N>(d: Opcodes, code: seq<Instr>, names: seq<N>): set<N>
    requires forall i :: 0 <= i < |code| ==> Resolvable(d, code[i], names)
  {
    set i | 0 <= i < |code| && Resolvable(d, code[i], names) && code[i].WithArg? && code[i].op in d.globalOps :: names[Value(code[i].words)]
  }

  /** Main result: on any encoded instruction list the scan is aligned with the instructions and
      returns exactly the names that global opcodes reference, or fails exactly when one of them
      references no name. Whatever follows the list is scanned from its own boundary. */
  lemma {:induction false} ScanExact<N>(d: Opcodes, code: seq<Instr>, tail: seq<Byte>, names: seq<N>)
    requires d.Valid() && AllWellFormed(d, code)
    ensures var all := forall i :: 0 <= i < |code| ==> Resolvable(d, code[i], names);
      && (!all ==> Scan(d, EncodeAll(d, code) + tail, 0, names) == None)
      && (all ==> Scan(d, EncodeAll(d, code) + tail, 0, names) ==
                  With(AllNames(d, code, names), Scan(d, tail, 0, names)))
  {
    if code == [] {
      assert EncodeAll(d, code) + tail == tail;
      assert AllNames(d, code, names) == {};
      WithWith({}, {}, Scan(d, tail, 0, names));
    } else {
      var rest := code[1..];
      assert EncodeAll(d, code) + tail == Encode(d, code[0]) + (EncodeAll(d, rest) + tail);
      ScanOne(d, code[0], EncodeAll(d, rest) + tail, names);
      ScanExact(d, rest, tail, names);
      assert forall i :: 0 <= i < |rest| ==> rest[i] == code[i + 1];
      if forall i :: 0 <= i < |code| ==> Resolvable(d, code[i], names) {
        AllNamesCons(d, code, names);
        WithWith(NamesOf(d, code[0], names), AllNames(d, rest, names), Scan(d, tail, 0, names));
      } else {
        var i :| 0 <= i < |code| && !Resolvable(d, code[i], names);
        assert i > 0 ==> !Resolvable(d, rest[i - 1], names);
      }
    }
  }

  lemma AllNamesCons<N>(d: Opcodes, code: seq<Instr>, names: seq<N>)
    requires code != [] && forall i :: 0 <= i < |code| ==> Resolvable(d, code[i], names)
    ensures forall i :: 0 <= i < |code[1..]| ==> Resolvable(d, code[1..][i], names)
    ensures AllNames(d, code, names) == NamesOf(d, code[0], names) + AllNames(d, code[1..], names)
  {
    var rest := code[1..];
    assert forall i :: 0 <= i < |rest| ==> rest[i] == code[i + 1];
    forall x
      ensures x in AllNames(d, code, names) <==> x in NamesOf(d, code[0], names) + AllNames(d, rest, names)
    {
      if x in AllNames(d, code, names) {
        var i :| 0 <= i < |code| && code[i].WithArg? && code[i].op in d.globalOps && x == names[Value(code[i].words)];
        assert i > 0 ==> rest[i - 1] == code[i];
      }
      if x in AllNames(d, rest, names) {
        var i :| 0 <= i < |rest| && rest[i].WithArg? && rest[i].op in d.globalOps && x == names[Value(rest[i].words)];
        assert code[i + 1] == rest[i];
      }
    }
  }

  /** An instruction cut off in its argument is an error, wherever it stands. */
  lemma CutOffArgument<N>(d: Opcodes, code: seq<Instr>, cut: seq<Byte>, names: seq<N>)
    requires d.Valid() && AllWellFormed(d, code)
    requires 1 <= |cut| <= 2 && cut[0] >= d.haveArgument
    ensures Scan(d, EncodeAll(d, code) + cut, 0, names) == None
  {
    ScanExact(d, code, cut, names);
  }
}
