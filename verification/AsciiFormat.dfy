// The ASCII AIGER format (src/formats/aiger.c): what is written for an AIG and its
// symbols, and what a byte sequence means to the reader.

module AsciiFormat {
  import opened AigModel
  import opened AigSemantics
  import opened AigerBinary
  import opened Arithmetic
  import opened Basics
  import opened Decimals

  // The names of inputs, latches or outputs, by position.
  type Names = seq<Option<seq<nat>>>

  datatype Symbols = Symbols(inputs: Names, latches: Names, outputs: Names)

  const INPUT_MARK: nat := 105
  const LATCH_MARK: nat := 108
  const OUTPUT_MARK: nat := 111
  const COMMENT_MARK: nat := 99

  // ----- writing -----

  function LatchLine(l: Latch): seq<nat> {
    Decimal(l.lit) + [SPACE] + Decimal(l.next) + [NEWLINE]
  }

  function AndLine(and: And): seq<nat> {
    Decimal(and.lhs) + [SPACE] + Decimal(and.rhs0) + [SPACE] + Decimal(and.rhs1) + [NEWLINE]
  }

  function LatchText(ls: seq<Latch>): seq<nat> {
    if ls == [] then [] else LatchLine(ls[0]) + LatchText(ls[1..])
  }

  function AndText(ands: seq<And>): seq<nat> {
    if ands == [] then [] else AndLine(ands[0]) + AndText(ands[1..])
  }

  function SymbolLine(mark: nat, i: nat, name: Option<seq<nat>>): seq<nat> {
    match name
    case None => []
    case Some(bytes) => [mark] + Decimal(i) + [SPACE] + bytes + [NEWLINE]
  }

  // The names from position i on.
  function SymbolText(mark: nat, names: Names, i: nat): seq<nat>
    decreases |names| - i
  {
    if i >= |names| then [] else SymbolLine(mark, i, names[i]) + SymbolText(mark, names, i + 1)
  }

  function AagHeader(h: Header): seq<nat> {
    [97, 97, 103, SPACE] + HeaderText(h.maxvar, h.inputs, h.latches, h.outputs, h.ands)[4..]
  }

  function SymbolsText(symbols: Symbols): seq<nat> {
    SymbolText(INPUT_MARK, symbols.inputs, 0) + (SymbolText(LATCH_MARK, symbols.latches, 0) + SymbolText(OUTPUT_MARK, symbols.outputs, 0))
  }

  ghost function AagText(n: Aig, symbols: Symbols): seq<nat> {
    AagHeader(HeaderOf(n)) + (Lines(n.inputs) + (LatchText(n.latches) + (Lines(n.outputs) + (AndText(n.ands) + SymbolsText(symbols)))))
  }

  // ----- parsing -----

  predicate ValidVar(lit: nat, maxvar: nat) {
    lit != 0 && lit % 2 == 0 && Lit2Var(lit) <= maxvar
  }

  function LatchLits(ls: seq<Latch>): (r: seq<nat>)
    ensures |r| == |ls| && forall i :: 0 <= i < |ls| ==> r[i] == ls[i].lit
  {
    seq(|ls|, i requires 0 <= i < |ls| => ls[i].lit)
  }

  function AndLits(ands: seq<And>): (r: seq<nat>)
    ensures |r| == |ands| && forall i :: 0 <= i < |ands| ==> r[i] == ands[i].lhs
  {
    seq(|ands|, i requires 0 <= i < |ands| => ands[i].lhs)
  }

  // Every literal defined so far.
  function Definitions(n: Aig): seq<nat> {
    n.inputs + LatchLits(n.latches) + AndLits(n.ands)
  }

  // k more inputs.
  function ParseInputs(s: seq<nat>, k: nat, n: Aig): Option<(Aig, seq<nat>)>
    decreases k
  {
    if k == 0 then Some((n, s))
    else match Literal(s, NEWLINE)
      case None => None
      case Some((lit, t)) =>
        if !ValidVar(lit, n.maxvar) || lit in Definitions(n) then None else ParseInputs(t, k - 1, n.(inputs := n.inputs + [lit]))
  }

  function ParseLatch(s: seq<nat>, n: Aig): Option<(Latch, seq<nat>)> {
    match Literal(s, SPACE)
    case None => None
    case Some((lit, t)) =>
      if !ValidVar(lit, n.maxvar) || lit in Definitions(n) then None
      else match Literal(t, NEWLINE)
        case None => None
        case Some((next, u)) => if Lit2Var(next) > n.maxvar then None else Some((Latch(lit, next), u))
  }

  function ParseLatches(s: seq<nat>, k: nat, n: Aig): Option<(Aig, seq<nat>)>
    decreases k
  {
    if k == 0 then Some((n, s))
    else match ParseLatch(s, n)
      case None => None
      case Some((l, t)) => ParseLatches(t, k - 1, n.(latches := n.latches + [l]))
  }

  function ParseOutputs(s: seq<nat>, k: nat, n: Aig): Option<(Aig, seq<nat>)>
    decreases k
  {
    if k == 0 then Some((n, s))
    else match Literal(s, NEWLINE)
      case None => None
      case Some((lit, t)) => if Lit2Var(lit) > n.maxvar then None else ParseOutputs(t, k - 1, n.(outputs := n.outputs + [lit]))
  }

  function ParseAndLine(s: seq<nat>, n: Aig): Option<(And, seq<nat>)> {
    match Literal(s, SPACE)
    case None => None
    case Some((lhs, t)) =>
      if !ValidVar(lhs, n.maxvar) || lhs in Definitions(n) then None
      else match Literal(t, SPACE)
        case None => None
        case Some((rhs0, u)) =>
          if Lit2Var(rhs0) > n.maxvar then None
          else match Literal(u, NEWLINE)
            case None => None
            case Some((rhs1, w)) => if Lit2Var(rhs1) > n.maxvar then None else Some((And(lhs, rhs0, rhs1), w))
  }

  function ParseAndLines(s: seq<nat>, k: nat, n: Aig): Option<(Aig, seq<nat>)>
    decreases k
  {
    if k == 0 then Some((n, s))
    else match ParseAndLine(s, n)
      case None => None
      case Some((and, t)) => ParseAndLines(t, k - 1, n.(ands := n.ands + [and]))
  }

  // The bytes before the next new line.
  function NameLine(s: seq<nat>): (r: Option<(seq<nat>, seq<nat>)>)
    ensures r.Some? ==> |r.value.1| < |s|
  {
    if s == [] then None
    else if s[0] == NEWLINE then Some(([], s[1..]))
    else match NameLine(s[1..])
      case None => None
      case Some((name, t)) => Some(([s[0]] + name, t))
  }

  // A name ends at a zero byte, and an empty one is none.
  function CString(s: seq<nat>): seq<nat> {
    if s == [] || s[0] == 0 then [] else [s[0]] + CString(s[1..])
  }

  function NameOf(bytes: seq<nat>): Option<seq<nat>> {
    if CString(bytes) == [] then None else Some(CString(bytes))
  }

  predicate IsMark(ch: int) {
    ch == INPUT_MARK || ch == LATCH_MARK || ch == OUTPUT_MARK
  }

  function NamesOf(symbols: Symbols, mark: nat): Names {
    if mark == INPUT_MARK then symbols.inputs else if mark == LATCH_MARK then symbols.latches else symbols.outputs
  }

  function WithNames(symbols: Symbols, mark: nat, names: Names): Symbols {
    if mark == INPUT_MARK then symbols.(inputs := names)
    else if mark == LATCH_MARK then symbols.(latches := names)
    else symbols.(outputs := names)
  }

  // One entry after its mark.
  function ParseSymbol(s: seq<nat>, mark: nat, symbols: Symbols): (r: Option<(Symbols, seq<nat>)>)
    ensures r.Some? ==> |r.value.1| < |s|
  {
    match Literal(s, SPACE)
    case None => None
    case Some((pos, t)) =>
      LiteralShorter(s, SPACE);
      if pos >= |NamesOf(symbols, mark)| || NamesOf(symbols, mark)[pos].Some? then None
      else match NameLine(t)
        case None => None
        case Some((bytes, u)) => Some((WithNames(symbols, mark, NamesOf(symbols, mark)[pos := NameOf(bytes)]), u))
  }

  lemma {:induction false} NumberShorter(s: seq<nat>, acc: nat)
    ensures |Number(s, acc).1| <= |s|
  {
    if s != [] && IsDigit(s[0]) {
      NumberShorter(s[1..], W32(10 * acc + (s[0] - 48)));
    }
  }

  lemma LiteralShorter(s: seq<nat>, followedBy: nat)
    ensures Literal(s, followedBy).Some? ==> |Literal(s, followedBy).value.1| < |s|
  {
    NumberShorter(s, 0);
  }

  // At any other character than a mark, 'c' or the end an assertion fails, or an error is
  // reported, depending on the characters read before.
  datatype SymbolsRead = AtEnd(symbols: Symbols) | AtComments(symbols: Symbols) | BadSymbol | NoMark

  function ParseSymbols(s: seq<nat>, symbols: Symbols): SymbolsRead
    decreases |s|
  {
    if s == [] then AtEnd(symbols)
    else if s[0] == COMMENT_MARK then AtComments(symbols)
    else if !IsMark(s[0]) then NoMark
    else match ParseSymbol(s[1..], s[0], symbols)
      case None => BadSymbol
      case Some((more, t)) => ParseSymbols(t, more)
  }

  // Oversized: so many variables that literals leave 32 bits.
  datatype AagOutcome =
    | ReadAag(n: Aig, symbols: Symbols) | CommentsFollow(n: Aig, symbols: Symbols) | Rejected | Unsettled | Oversized | BinaryFile

  function NoNames(k: nat): (r: Names)
    ensures |r| == k && forall i :: 0 <= i < k ==> r[i] == None
  {
    seq(k, _ => None)
  }

  function NoSymbols(h: Header): Symbols {
    Symbols(NoNames(h.inputs), NoNames(h.latches), NoNames(h.outputs))
  }

  // Inputs, latches, outputs and ANDs.
  function ParseDefinitions(h: Header, s: seq<nat>): Option<(Aig, seq<nat>)> {
    match ParseInputs(s, h.inputs, Aig(h.maxvar, [], [], [], []))
    case None => None
    case Some((n0, s0)) => match ParseLatches(s0, h.latches, n0)
      case None => None
      case Some((n1, s1)) => match ParseOutputs(s1, h.outputs, n1)
        case None => None
        case Some((n2, s2)) => ParseAndLines(s2, h.ands, n2)
  }

  function Named(n: Aig, r: SymbolsRead): AagOutcome {
    match r
    case BadSymbol => Rejected
    case NoMark => Unsettled
    case AtComments(symbols) => CommentsFollow(n, symbols)
    case AtEnd(symbols) => ReadAag(n, symbols)
  }

  // The parts after the header line; symbols come last.
  function ParseAagBody(h: Header, s: seq<nat>): AagOutcome {
    match ParseDefinitions(h, s)
    case None => Rejected
    case Some((n, t)) => Named(n, ParseSymbols(t, NoSymbols(h)))
  }

  function ParseAag(s: seq<nat>): AagOutcome {
    match Magic(s)
    case None => Rejected
    case Some(ascii) => match Counts(s[4..])
      case None => Rejected
      case Some((h, t)) =>
        if !ascii then BinaryFile else if h.maxvar >= TWO_TO_THE_32 / 2 then Oversized else ParseAagBody(h, t)
  }

  // ----- the round trip -----

  // What a well-formed AIG of 32-bit literals is to the reader.
  ghost predicate Readable(n: Aig) {
    && n.maxvar < TWO_TO_THE_32 / 2 && |n.outputs| < TWO_TO_THE_32 && NoDuplicates(Definitions(n))
    && (forall i :: 0 <= i < |Definitions(n)| ==> ValidVar(Definitions(n)[i], n.maxvar))
    && (forall i :: 0 <= i < |n.latches| ==> Lit2Var(n.latches[i].next) <= n.maxvar)
    && (forall i :: 0 <= i < |n.outputs| ==> Lit2Var(n.outputs[i]) <= n.maxvar)
    && forall i :: 0 <= i < |n.ands| ==> Lit2Var(n.ands[i].rhs0) <= n.maxvar && Lit2Var(n.ands[i].rhs1) <= n.maxvar
  }

  // Strings of C that are not empty.
  ghost predicate CNames(names: Names) {
    forall i :: 0 <= i < |names| && names[i].Some? ==> names[i].value != [] && 0 !in names[i].value
  }

  ghost predicate OneLineNames(names: Names) {
    forall i :: 0 <= i < |names| && names[i].Some? ==> NEWLINE !in names[i].value
  }

  // An entry for every input, latch and output.
  ghost predicate SymbolsFit(n: Aig, symbols: Symbols) {
    && |symbols.inputs| == |n.inputs| && |symbols.latches| == |n.latches| && |symbols.outputs| == |n.outputs|
    && CNames(symbols.inputs) && CNames(symbols.latches) && CNames(symbols.outputs)
  }

  ghost predicate OneLine(symbols: Symbols) {
    OneLineNames(symbols.inputs) && OneLineNames(symbols.latches) && OneLineNames(symbols.outputs)
  }

  lemma LitFits(lit: nat, maxvar: nat)
    requires Lit2Var(lit) <= maxvar < TWO_TO_THE_32 / 2
    ensures lit < TWO_TO_THE_32
  {
  }

  // The AIG while its i-th input, latch, output or AND is read.
  ghost function InputsTo(n: Aig, i: nat): Aig
    requires i <= |n.inputs|
  {
    Aig(n.maxvar, n.inputs[..i], [], [], [])
  }

  ghost function LatchesTo(n: Aig, i: nat): Aig
    requires i <= |n.latches|
  {
    Aig(n.maxvar, n.inputs, n.latches[..i], [], [])
  }

  ghost function OutputsTo(n: Aig, i: nat): Aig
    requires i <= |n.outputs|
  {
    Aig(n.maxvar, n.inputs, n.latches, n.outputs[..i], [])
  }

  ghost function AndsTo(n: Aig, i: nat): Aig
    requires i <= |n.ands|
  {
    Aig(n.maxvar, n.inputs, n.latches, n.outputs, n.ands[..i])
  }

  // The next literal is not defined yet.
  lemma NextInputNew(n: Aig, i: nat)
    requires Readable(n) && i < |n.inputs|
    ensures n.inputs[i] !in Definitions(InputsTo(n, i)) && ValidVar(n.inputs[i], n.maxvar)
  {
    assert Definitions(n)[i] == n.inputs[i];
    forall j | 0 <= j < i ensures n.inputs[j] != n.inputs[i] {
      assert Definitions(n)[j] == n.inputs[j];
    }
  }

  lemma NextLatchNew(n: Aig, i: nat)
    requires Readable(n) && i < |n.latches|
    ensures n.latches[i].lit !in Definitions(LatchesTo(n, i)) && ValidVar(n.latches[i].lit, n.maxvar)
  {
    var defs, k := Definitions(n), |n.inputs| + i;
    assert defs[k] == n.latches[i].lit;
    var some := Definitions(LatchesTo(n, i));
    forall j | 0 <= j < |some| ensures some[j] != defs[k] {
      assert some[j] == defs[j] && j < k;
    }
  }

  lemma NextAndNew(n: Aig, i: nat)
    requires Readable(n) && i < |n.ands|
    ensures n.ands[i].lhs !in Definitions(AndsTo(n, i)) && ValidVar(n.ands[i].lhs, n.maxvar)
  {
    var defs, k := Definitions(n), |n.inputs| + |n.latches| + i;
    assert defs[k] == n.ands[i].lhs;
    var some := Definitions(AndsTo(n, i));
    forall j | 0 <= j < |some| ensures some[j] != defs[k] {
      assert some[j] == defs[j] && j < k;
    }
  }

  lemma {:induction false} InputsRoundTrip(n: Aig, i: nat, t: seq<nat>)
    requires Readable(n) && i <= |n.inputs|
    ensures ParseInputs(Lines(n.inputs[i..]) + t, |n.inputs| - i, InputsTo(n, i)) == Some((InputsTo(n, |n.inputs|), t))
    decreases |n.inputs| - i
  {
    if i == |n.inputs| {
      assert n.inputs[i..] == [] && Lines([]) + t == t;
    } else {
      var lit, rest := n.inputs[i], Lines(n.inputs[i + 1..]) + t;
      NextInputNew(n, i);
      LitFits(lit, n.maxvar);
      LinesFront(n.inputs[i..]);
      assert n.inputs[i..][1..] == n.inputs[i + 1..];
      assert Lines(n.inputs[i..]) + t == Decimal(lit) + ([NEWLINE] + rest);
      LiteralRoundTrip(lit, NEWLINE, rest);
      assert InputsTo(n, i).inputs + [lit] == n.inputs[..i + 1];
      InputsRoundTrip(n, i + 1, t);
    }
  }

  lemma LatchRoundTrip(n: Aig, i: nat, t: seq<nat>)
    requires Readable(n) && i < |n.latches|
    ensures ParseLatch(LatchLine(n.latches[i]) + t, LatchesTo(n, i)) == Some((n.latches[i], t))
  {
    var l := n.latches[i];
    NextLatchNew(n, i);
    LitFits(l.lit, n.maxvar);
    LitFits(l.next, n.maxvar);
    var u := Decimal(l.next) + ([NEWLINE] + t);
    assert LatchLine(l) + t == Decimal(l.lit) + ([SPACE] + u);
    LiteralRoundTrip(l.lit, SPACE, u);
    LiteralRoundTrip(l.next, NEWLINE, t);
  }

  lemma {:induction false} LatchesRoundTrip(n: Aig, i: nat, t: seq<nat>)
    requires Readable(n) && i <= |n.latches|
    ensures ParseLatches(LatchText(n.latches[i..]) + t, |n.latches| - i, LatchesTo(n, i)) == Some((LatchesTo(n, |n.latches|), t))
    decreases |n.latches| - i
  {
    if i == |n.latches| {
      assert n.latches[i..] == [] && LatchText([]) + t == t;
    } else {
      var rest := LatchText(n.latches[i + 1..]) + t;
      assert n.latches[i..][1..] == n.latches[i + 1..];
      assert LatchText(n.latches[i..]) + t == LatchLine(n.latches[i]) + rest;
      LatchRoundTrip(n, i, rest);
      assert LatchesTo(n, i).latches + [n.latches[i]] == n.latches[..i + 1];
      LatchesRoundTrip(n, i + 1, t);
    }
  }

  lemma {:induction false} OutputsRoundTrip(n: Aig, i: nat, t: seq<nat>)
    requires Readable(n) && i <= |n.outputs|
    ensures ParseOutputs(Lines(n.outputs[i..]) + t, |n.outputs| - i, OutputsTo(n, i)) == Some((OutputsTo(n, |n.outputs|), t))
    decreases |n.outputs| - i
  {
    if i == |n.outputs| {
      assert n.outputs[i..] == [] && Lines([]) + t == t;
    } else {
      var lit, rest := n.outputs[i], Lines(n.outputs[i + 1..]) + t;
      LitFits(lit, n.maxvar);
      LinesFront(n.outputs[i..]);
      assert n.outputs[i..][1..] == n.outputs[i + 1..];
      assert Lines(n.outputs[i..]) + t == Decimal(lit) + ([NEWLINE] + rest);
      LiteralRoundTrip(lit, NEWLINE, rest);
      assert OutputsTo(n, i).outputs + [lit] == n.outputs[..i + 1];
      OutputsRoundTrip(n, i + 1, t);
    }
  }

  lemma AndLineRoundTrip(n: Aig, i: nat, t: seq<nat>)
    requires Readable(n) && i < |n.ands|
    ensures ParseAndLine(AndLine(n.ands[i]) + t, AndsTo(n, i)) == Some((n.ands[i], t))
  {
    var and := n.ands[i];
    NextAndNew(n, i);
    LitFits(and.lhs, n.maxvar);
    LitFits(and.rhs0, n.maxvar);
    LitFits(and.rhs1, n.maxvar);
    var v := Decimal(and.rhs1) + ([NEWLINE] + t);
    var u := Decimal(and.rhs0) + ([SPACE] + v);
    assert AndLine(and) + t == Decimal(and.lhs) + ([SPACE] + u);
    LiteralRoundTrip(and.lhs, SPACE, u);
    LiteralRoundTrip(and.rhs0, SPACE, v);
    LiteralRoundTrip(and.rhs1, NEWLINE, t);
  }

  lemma {:induction false} AndLinesRoundTrip(n: Aig, i: nat, t: seq<nat>)
    requires Readable(n) && i <= |n.ands|
    ensures ParseAndLines(AndText(n.ands[i..]) + t, |n.ands| - i, AndsTo(n, i)) == Some((AndsTo(n, |n.ands|), t))
    decreases |n.ands| - i
  {
    if i == |n.ands| {
      assert n.ands[i..] == [] && AndText([]) + t == t;
    } else {
      var rest := AndText(n.ands[i + 1..]) + t;
      assert n.ands[i..][1..] == n.ands[i + 1..];
      assert AndText(n.ands[i..]) + t == AndLine(n.ands[i]) + rest;
      AndLineRoundTrip(n, i, rest);
      assert AndsTo(n, i).ands + [n.ands[i]] == n.ands[..i + 1];
      AndLinesRoundTrip(n, i + 1, t);
    }
  }

  // ----- symbols -----

  lemma {:induction false} NameRoundTrip(bytes: seq<nat>, t: seq<nat>)
    requires NEWLINE !in bytes
    ensures NameLine(bytes + ([NEWLINE] + t)) == Some((bytes, t))
  {
    var s := bytes + ([NEWLINE] + t);
    if bytes == [] {
      assert s == [NEWLINE] + t && s[1..] == t;
    } else {
      assert s[1..] == bytes[1..] + ([NEWLINE] + t) && s[0] == bytes[0];
      NameRoundTrip(bytes[1..], t);
      assert [bytes[0]] + bytes[1..] == bytes;
    }
  }

  lemma {:induction false} NoZero(bytes: seq<nat>)
    requires 0 !in bytes
    ensures CString(bytes) == bytes
  {
    if bytes != [] {
      NoZero(bytes[1..]);
      assert [bytes[0]] + bytes[1..] == bytes;
    }
  }

  // The names before position i are read.
  ghost function NamesTo(names: Names, i: nat): Names
    requires i <= |names|
  {
    names[..i] + NoNames(|names| - i)
  }

  lemma NameRead(names: Names, i: nat)
    requires i < |names|
    ensures NamesTo(names, i)[i] == None && NamesTo(names, i)[i := names[i]] == NamesTo(names, i + 1)
    ensures names[i] == None ==> NamesTo(names, i + 1) == NamesTo(names, i)
  {
  }

  lemma ParseSymbolIs(s: seq<nat>, mark: nat, symbols: Symbols, pos: nat, t: seq<nat>, bytes: seq<nat>, u: seq<nat>)
    requires Literal(s, SPACE) == Some((pos, t)) && NameLine(t) == Some((bytes, u))
    requires pos < |NamesOf(symbols, mark)| && NamesOf(symbols, mark)[pos] == None
    ensures ParseSymbol(s, mark, symbols) == Some((WithNames(symbols, mark, NamesOf(symbols, mark)[pos := NameOf(bytes)]), u))
  {
  }

  lemma SymbolRoundTrip(mark: nat, names: Names, i: nat, symbols: Symbols, t: seq<nat>)
    requires i < |names| && i < TWO_TO_THE_32 && names[i].Some? && CNames(names) && OneLineNames(names)
    requires NamesOf(symbols, mark) == NamesTo(names, i)
    ensures ParseSymbol(SymbolLine(mark, i, names[i])[1..] + t, mark, symbols) == Some((WithNames(symbols, mark, NamesTo(names, i + 1)), t))
  {
    var bytes := names[i].value;
    var u := bytes + ([NEWLINE] + t);
    var s := Decimal(i) + ([SPACE] + u);
    SymbolLineRest(mark, i, bytes, t);
    LiteralRoundTrip(i, SPACE, u);
    NameRoundTrip(bytes, t);
    NoZero(bytes);
    NameRead(names, i);
    ParseSymbolIs(s, mark, symbols, i, u, bytes, t);
  }

  lemma SymbolLineRest(mark: nat, i: nat, bytes: seq<nat>, t: seq<nat>)
    ensures SymbolLine(mark, i, Some(bytes))[1..] + t == Decimal(i) + ([SPACE] + (bytes + ([NEWLINE] + t)))
  {
  }

  lemma ParseSymbolsStep(s: seq<nat>, symbols: Symbols, more: Symbols, t: seq<nat>)
    requires s != [] && IsMark(s[0]) && ParseSymbol(s[1..], s[0], symbols) == Some((more, t))
    ensures ParseSymbols(s, symbols) == ParseSymbols(t, more)
  {
  }

  // One position; without a name nothing is written.
  lemma SymbolLineRead(mark: nat, names: Names, i: nat, symbols: Symbols, rest: seq<nat>)
    requires IsMark(mark) && i < |names| < TWO_TO_THE_32 && CNames(names) && OneLineNames(names) && NamesOf(symbols, mark) == NamesTo(names, i)
    ensures ParseSymbols(SymbolLine(mark, i, names[i]) + rest, symbols) == ParseSymbols(rest, WithNames(symbols, mark, NamesTo(names, i + 1)))
  {
    var line := SymbolLine(mark, i, names[i]);
    if names[i].Some? {
      SymbolRoundTrip(mark, names, i, symbols, rest);
      assert (line + rest)[0] == mark && (line + rest)[1..] == line[1..] + rest;
      ParseSymbolsStep(line + rest, symbols, WithNames(symbols, mark, NamesTo(names, i + 1)), rest);
    } else {
      NameRead(names, i);
      assert line + rest == rest;
      SameNames(symbols, mark);
    }
  }

  lemma SameNames(symbols: Symbols, mark: nat)
    ensures WithNames(symbols, mark, NamesOf(symbols, mark)) == symbols
  {
  }

  lemma SymbolTextFront(mark: nat, names: Names, i: nat, t: seq<nat>)
    requires i < |names|
    ensures SymbolText(mark, names, i) + t == SymbolLine(mark, i, names[i]) + (SymbolText(mark, names, i + 1) + t)
  {
    Regroup(SymbolLine(mark, i, names[i]), SymbolText(mark, names, i + 1), t);
  }

  // The names are changed once for all.
  lemma NamesTwice(symbols: Symbols, mark: nat, names: Names, later: Names)
    requires IsMark(mark)
    ensures NamesOf(WithNames(symbols, mark, names), mark) == names
    ensures WithNames(WithNames(symbols, mark, names), mark, later) == WithNames(symbols, mark, later)
  {
  }

  lemma {:induction false} SymbolTextRoundTrip(mark: nat, names: Names, i: nat, symbols: Symbols, t: seq<nat>)
    requires IsMark(mark) && i <= |names| < TWO_TO_THE_32 && CNames(names) && OneLineNames(names) && NamesOf(symbols, mark) == NamesTo(names, i)
    ensures ParseSymbols(SymbolText(mark, names, i) + t, symbols) == ParseSymbols(t, WithNames(symbols, mark, names))
    decreases |names| - i
  {
    if i == |names| {
      assert NamesTo(names, i) == names;
      assert SymbolText(mark, names, i) + t == t;
      SameNames(symbols, mark);
    } else {
      SymbolTextFront(mark, names, i, t);
      SymbolLineRead(mark, names, i, symbols, SymbolText(mark, names, i + 1) + t);
      NamesTwice(symbols, mark, NamesTo(names, i + 1), names);
      SymbolTextRoundTrip(mark, names, i + 1, WithNames(symbols, mark, NamesTo(names, i + 1)), t);
    }
  }

  lemma SymbolsRoundTrip(n: Aig, symbols: Symbols)
    requires SymbolsFit(n, symbols) && OneLine(symbols)
    requires |n.inputs| < TWO_TO_THE_32 && |n.latches| < TWO_TO_THE_32 && |n.outputs| < TWO_TO_THE_32
    ensures ParseSymbols(SymbolsText(symbols), NoSymbols(HeaderOf(n))) == AtEnd(symbols)
  {
    var none := NoSymbols(HeaderOf(n));
    var outputs := SymbolText(OUTPUT_MARK, symbols.outputs, 0);
    var latches := SymbolText(LATCH_MARK, symbols.latches, 0);
    assert NamesTo(symbols.inputs, 0) == none.inputs && NamesTo(symbols.latches, 0) == none.latches && NamesTo(symbols.outputs, 0) == none.outputs;
    SymbolTextRoundTrip(INPUT_MARK, symbols.inputs, 0, none, latches + outputs);
    var some := none.(inputs := symbols.inputs);
    SymbolTextRoundTrip(LATCH_MARK, symbols.latches, 0, some, outputs);
    SymbolTextRoundTrip(OUTPUT_MARK, symbols.outputs, 0, some.(latches := symbols.latches), []);
    assert outputs + [] == outputs;
  }

  // ----- the whole file -----

  lemma AagCounts(h: Header, t: seq<nat>)
    requires h.maxvar < TWO_TO_THE_32 && h.inputs < TWO_TO_THE_32 && h.latches < TWO_TO_THE_32
    requires h.outputs < TWO_TO_THE_32 && h.ands < TWO_TO_THE_32
    ensures Magic(AagHeader(h) + t) == Some(true) && Counts((AagHeader(h) + t)[4..]) == Some((h, t))
  {
    CountsRoundTrip(h, t);
    var text := HeaderText(h.maxvar, h.inputs, h.latches, h.outputs, h.ands);
    assert (text + t)[4..] == text[4..] + t == (AagHeader(h) + t)[4..];
  }

  // A definition for each input, latch and AND, all different: no more than maxvar.
  lemma CountsFit(n: Aig)
    requires Readable(n)
    ensures |n.inputs| + |n.latches| + |n.ands| <= n.maxvar
  {
    var defs := Definitions(n);
    var vars: seq<nat> := seq(|defs|, i requires 0 <= i < |defs| => Lit2Var(defs[i]));
    forall i: nat | i < |vars| ensures 1 <= vars[i] <= n.maxvar {
      assert ValidVar(defs[i], n.maxvar);
    }
    forall i: nat, j: nat | i < j < |vars| ensures vars[i] != vars[j] {
      assert ValidVar(defs[i], n.maxvar) && ValidVar(defs[j], n.maxvar) && defs[i] != defs[j];
    }
    OnceBound(vars, n.maxvar);
  }

  // The text from the latches, the outputs and the ANDs on.
  ghost function FromAnds(n: Aig, t: seq<nat>): seq<nat> { AndText(n.ands) + t }

  ghost function FromOutputs(n: Aig, t: seq<nat>): seq<nat> { Lines(n.outputs) + FromAnds(n, t) }

  ghost function FromLatches(n: Aig, t: seq<nat>): seq<nat> { LatchText(n.latches) + FromOutputs(n, t) }

  lemma FirstParts(n: Aig, t: seq<nat>)
    requires Readable(n)
    ensures ParseInputs(Lines(n.inputs) + FromLatches(n, t), |n.inputs|, Aig(n.maxvar, [], [], [], [])) == Some((LatchesTo(n, 0), FromLatches(n, t)))
    ensures ParseLatches(FromLatches(n, t), |n.latches|, LatchesTo(n, 0)) == Some((OutputsTo(n, 0), FromOutputs(n, t)))
  {
    InputsRoundTrip(n, 0, FromLatches(n, t));
    LatchesRoundTrip(n, 0, FromOutputs(n, t));
    assert n.inputs[0..] == n.inputs && n.latches[0..] == n.latches;
    assert InputsTo(n, |n.inputs|) == LatchesTo(n, 0) && LatchesTo(n, |n.latches|) == OutputsTo(n, 0);
  }

  lemma LastParts(n: Aig, t: seq<nat>)
    requires Readable(n)
    ensures ParseOutputs(FromOutputs(n, t), |n.outputs|, OutputsTo(n, 0)) == Some((AndsTo(n, 0), FromAnds(n, t)))
    ensures ParseAndLines(FromAnds(n, t), |n.ands|, AndsTo(n, 0)) == Some((n, t))
  {
    OutputsRoundTrip(n, 0, FromAnds(n, t));
    AndLinesRoundTrip(n, 0, t);
    assert n.outputs[0..] == n.outputs && n.ands[0..] == n.ands;
    assert OutputsTo(n, |n.outputs|) == AndsTo(n, 0) && AndsTo(n, |n.ands|) == n;
  }

  // The definitions, read one after the other.
  lemma DefinitionsAre(h: Header, s: seq<nat>, n0: Aig, s0: seq<nat>, n1: Aig, s1: seq<nat>, n2: Aig, s2: seq<nat>, n3: Aig, s3: seq<nat>)
    requires ParseInputs(s, h.inputs, Aig(h.maxvar, [], [], [], [])) == Some((n0, s0))
    requires ParseLatches(s0, h.latches, n0) == Some((n1, s1))
    requires ParseOutputs(s1, h.outputs, n1) == Some((n2, s2))
    requires ParseAndLines(s2, h.ands, n2) == Some((n3, s3))
    ensures ParseDefinitions(h, s) == Some((n3, s3))
  {
  }

  lemma AagBodyRoundTrip(n: Aig, symbols: Symbols)
    requires Readable(n) && SymbolsFit(n, symbols) && OneLine(symbols)
    ensures ParseAagBody(HeaderOf(n), Lines(n.inputs) + FromLatches(n, SymbolsText(symbols))) == ReadAag(n, symbols)
  {
    var t := SymbolsText(symbols);
    FirstParts(n, t);
    LastParts(n, t);
    CountsFit(n);
    SymbolsRoundTrip(n, symbols);
    DefinitionsAre(HeaderOf(n), Lines(n.inputs) + FromLatches(n, t), LatchesTo(n, 0), FromLatches(n, t), OutputsTo(n, 0), FromOutputs(n, t),
                   AndsTo(n, 0), FromAnds(n, t), n, t);
  }

  // Reading what was written gives back the AIG and its names.
  lemma AagRoundTrip(n: Aig, symbols: Symbols)
    requires Readable(n) && SymbolsFit(n, symbols) && OneLine(symbols)
    ensures ParseAag(AagText(n, symbols)) == ReadAag(n, symbols)
  {
    CountsFit(n);
    AagCounts(HeaderOf(n), Lines(n.inputs) + FromLatches(n, SymbolsText(symbols)));
    AagBodyRoundTrip(n, symbols);
  }

  // ----- names with a new line -----

  lemma {:induction false} NameHasNoNewline(s: seq<nat>)
    ensures NameLine(s).Some? ==> NEWLINE !in NameLine(s).value.0
  {
    if s != [] && s[0] != NEWLINE {
      NameHasNoNewline(s[1..]);
    }
  }

  lemma {:induction false} CStringPart(s: seq<nat>)
    requires NEWLINE !in s
    ensures NEWLINE !in CString(s)
  {
    if s != [] {
      CStringPart(s[1..]);
    }
  }

  lemma SymbolKeepsLines(s: seq<nat>, mark: nat, symbols: Symbols)
    requires OneLine(symbols)
    ensures ParseSymbol(s, mark, symbols).Some? ==> OneLine(ParseSymbol(s, mark, symbols).value.0)
  {
    var read := Literal(s, SPACE);
    if read.Some? && NameLine(read.value.1).Some? {
      NameHasNoNewline(read.value.1);
      CStringPart(NameLine(read.value.1).value.0);
    }
  }

  // The reader never gives a name with a new line.
  lemma {:induction false} SymbolsKeepLines(s: seq<nat>, symbols: Symbols)
    requires OneLine(symbols)
    ensures ParseSymbols(s, symbols).AtEnd? ==> OneLine(ParseSymbols(s, symbols).symbols)
    decreases |s|
  {
    if s != [] && s[0] != COMMENT_MARK && IsMark(s[0]) {
      SymbolKeepsLines(s[1..], s[0], symbols);
      var one := ParseSymbol(s[1..], s[0], symbols);
      if one.Some? {
        SymbolsKeepLines(one.value.1, one.value.0);
      }
    }
  }

  lemma ReadNamesOneLine(s: seq<nat>)
    ensures ParseAag(s).ReadAag? ==> OneLine(ParseAag(s).symbols)
  {
    if ParseAag(s).ReadAag? {
      var (h, t0) := Counts(s[4..]).value;
      var (n, t1) := ParseDefinitions(h, t0).value;
      SymbolsKeepLines(t1, NoSymbols(h));
    }
  }

  // What was written is read back exactly when no name has a new line.
  lemma AagReadBack(n: Aig, symbols: Symbols)
    requires Readable(n) && SymbolsFit(n, symbols)
    ensures ParseAag(AagText(n, symbols)) == ReadAag(n, symbols) <==> OneLine(symbols)
  {
    if OneLine(symbols) {
      AagRoundTrip(n, symbols);
    } else {
      ReadNamesOneLine(AagText(n, symbols));
    }
  }
}
