// The binary AIGER format (src/formats/aiger.c): header and roots in decimal, ANDs
// as pairs of variable-length deltas; files are sequences of bytes.

module AigerBinary {
  import opened AigModel
  import opened AigSemantics
  import opened Basics
  import opened Decimals
  import opened Reencode
  import opened ReencodeWalk
  import opened ReencodeAig

  const TWO_TO_THE_32: nat := 0x1_0000_0000
  const SPACE: nat := 32
  const NEWLINE: nat := 10

  // ----- writing -----

  // Seven bits a byte, least significant first, the top bit set on all but the last.
  function Delta(n: nat): seq<nat> {
    if n < 128 then [n] else [n % 128 + 128] + Delta(n / 128)
  }

  method WriteDelta(out: seq<nat>, delta: nat) returns (out': seq<nat>)
    ensures out' == out + Delta(delta)
  {
    var tmp := delta;
    out' := out;
    while tmp >= 128
      invariant out' + Delta(tmp) == out + Delta(delta)
    {
      var ch := tmp % 128 + 128;
      assert out' + Delta(tmp) == out' + [ch] + Delta(tmp / 128);
      out' := out' + [ch];
      tmp := tmp / 128;
    }
    out' := out' + [tmp];
  }

  function Pow128(k: nat): (p: nat)
    ensures p >= 1
  {
    if k == 0 then 1 else 128 * Pow128(k - 1)
  }

  lemma {:induction false} DeltaLength(n: nat, k: nat)
    requires k >= 1 && n < Pow128(k)
    ensures 1 <= |Delta(n)| <= k
  {
    if n >= 128 {
      assert n / 128 < Pow128(k - 1);
      DeltaLength(n / 128, k - 1);
    }
  }

  // A 32-bit delta takes at most five bytes.
  lemma DeltaFiveBytes(n: nat)
    requires n < TWO_TO_THE_32
    ensures 1 <= |Delta(n)| <= 5
  {
    assert Pow128(1) == 128 && Pow128(2) == 128 * 128 && Pow128(3) == 128 * 128 * 128;
    assert Pow128(5) == 128 * 128 * Pow128(3);
    DeltaLength(n, 5);
  }

  function Lines(lits: seq<nat>): seq<nat> {
    if lits == [] then [] else Lines(lits[..|lits| - 1]) + Decimal(lits[|lits| - 1]) + [NEWLINE]
  }

  ghost predicate Descending(ands: seq<And>) {
    forall i: nat :: i < |ands| ==> ands[i].lhs >= ands[i].rhs0 >= ands[i].rhs1
  }

  ghost function Deltas(ands: seq<And>): seq<nat>
    requires Descending(ands)
  {
    if ands == [] then []
    else Deltas(ands[..|ands| - 1]) + AndBytes(ands[|ands| - 1])
  }

  ghost function AndBytes(and: And): seq<nat>
    requires and.lhs >= and.rhs0 >= and.rhs1
  {
    Delta(and.lhs - and.rhs0) + Delta(and.rhs0 - and.rhs1)
  }

  function HeaderText(m: nat, i: nat, l: nat, o: nat, a: nat): seq<nat> {
    [97, 105, 103, SPACE] + Decimal(m) + [SPACE] + Decimal(i) + [SPACE] + Decimal(l) + [SPACE] + Decimal(o) + [SPACE] + Decimal(a) + [NEWLINE]
  }

  ghost function FileText(n: Aig): seq<nat>
    requires Reencoded(n)
  {
    HeaderText(n.maxvar, |n.inputs|, |n.latches|, |n.outputs|, |n.ands|) + Lines(Nexts(n.latches)) + Lines(n.outputs) + Deltas(n.ands)
  }

  lemma LinesMore(lits: seq<nat>, i: nat, out: seq<nat>)
    requires i < |lits|
    ensures out + Lines(lits[..i + 1]) == out + Lines(lits[..i]) + Decimal(lits[i]) + [NEWLINE]
  {
    var more := lits[..i + 1];
    assert more[..|more| - 1] == lits[..i] && more[|more| - 1] == lits[i];
  }

  method WriteLines(lits: seq<nat>, out: seq<nat>) returns (out': seq<nat>)
    ensures out' == out + Lines(lits)
  {
    out' := out;
    var i: nat := 0;
    while i < |lits|
      invariant i <= |lits| && out' == out + Lines(lits[..i])
    {
      LinesMore(lits, i, out);
      out' := out' + Decimal(lits[i]) + [NEWLINE];
      i := i + 1;
    }
    assert lits[..i] == lits;
  }

  // aiger_write_header, with inputs and latches left implicit.
  method WriteHeader(n: Aig) returns (out: seq<nat>)
    ensures out == HeaderText(n.maxvar, |n.inputs|, |n.latches|, |n.outputs|, |n.ands|) + Lines(Nexts(n.latches)) + Lines(n.outputs)
  {
    out := [97, 105, 103, SPACE] + Decimal(n.maxvar) + [SPACE];
    out := out + Decimal(|n.inputs|) + [SPACE] + Decimal(|n.latches|) + [SPACE];
    out := out + Decimal(|n.outputs|) + [SPACE] + Decimal(|n.ands|) + [NEWLINE];
    assert out == HeaderText(n.maxvar, |n.inputs|, |n.latches|, |n.outputs|, |n.ands|);
    out := WriteLines(Nexts(n.latches), out);
    out := WriteLines(n.outputs, out);
  }

  lemma DeltasMore(ands: seq<And>, i: nat, out: seq<nat>)
    requires Descending(ands) && i < |ands|
    ensures out + Deltas(ands[..i + 1]) == out + Deltas(ands[..i]) + AndBytes(ands[i])
  {
    var less := ands[..i + 1];
    assert less[..|less| - 1] == ands[..i] && less[i] == ands[i];
    assert Deltas(less) == Deltas(ands[..i]) + AndBytes(ands[i]);
  }

  method WriteAnd(and: And, lhs: nat, out: seq<nat>) returns (out': seq<nat>)
    requires lhs == and.lhs && and.lhs >= and.rhs0 >= and.rhs1
    ensures out' == out + AndBytes(and)
  {
    out' := WriteDelta(out, lhs - and.rhs0);
    out' := WriteDelta(out', and.rhs0 - and.rhs1);
  }

  method WriteAnds(n: Aig, out: seq<nat>) returns (out': seq<nat>)
    requires Reencoded(n)
    ensures out' == out + Deltas(n.ands)
  {
    assert Descending(n.ands);
    var lhs := MaxInputOrLatch(n);
    MaxIsLast(n, lhs);
    lhs := lhs + 2;
    out' := out;
    var i: nat := 0;
    while i < |n.ands|
      invariant 0 <= i <= |n.ands| && lhs == Var2Lit(|n.inputs| + |n.latches| + i + 1)
      invariant out' == out + Deltas(n.ands[..i])
    {
      DeltasMore(n.ands, i, out);
      out' := WriteAnd(n.ands[i], lhs, out');
      lhs := lhs + 2;
      i := i + 1;
    }
    assert n.ands[..i] == n.ands;
  }

  // Renumbers, then writes.
  method WriteBinary(a: Aiger) returns (out: seq<nat>)
    requires a.error.None? && WellFormed(Public(a), a.types) && Unstacked(a.types)
    modifies a`maxvar, a`inputs, a`latches, a`outputs, a`ands, a`types
    ensures WellFormed(Public(a), a.types) && Reencoded(Public(a)) && Equivalent(old(Public(a)), Public(a))
    ensures old(Reencoded(Public(a))) ==> Public(a) == old(Public(a))
    ensures !old(Reencoded(Public(a))) ==> a.maxvar == |a.inputs| + |a.latches| + |a.ands| <= old(a.maxvar)
    ensures |a.outputs| == old(|a.outputs|)
    ensures out == FileText(Public(a))
  {
    ghost var code, order := AigerReencode(a);
    out := WriteHeader(Public(a));
    out := WriteAnds(Public(a), out);
  }

  // ----- parsing: what a byte sequence means to the reader -----

  function W32(x: nat): nat { x % TWO_TO_THE_32 }

  // The digits in front of s, after acc; 32 bits are kept.
  function Number(s: seq<nat>, acc: nat): (nat, seq<nat>) {
    if s != [] && IsDigit(s[0]) then Number(s[1..], W32(10 * acc + (s[0] - 48))) else (acc, s)
  }

  // A number and the one white space that must follow it.
  function Literal(s: seq<nat>, followedBy: nat): Option<(nat, seq<nat>)> {
    if s == [] || !IsDigit(s[0]) then None
    else var (v, t) := Number(s, 0);
      if t == [] || t[0] != followedBy then None else Some((v, t[1..]))
  }

  // A sixth byte below 8 would be shifted by 35 bits, which C leaves undefined.
  datatype DeltaRead = Value(v: nat, rest: seq<nat>) | Broken | Undefined

  // Byte number i of a delta whose lower bits are res.
  function ParseDelta(s: seq<nat>, i: nat, res: nat): DeltaRead
    requires i <= 5
    decreases |s|
  {
    if s == [] then Broken
    else if s[0] >= 128 then
      if i == 5 then Broken else ParseDelta(s[1..], i + 1, res + W32((s[0] % 128) * Pow128(i)))
    else if i == 5 then
      if s[0] >= 8 then Broken else Undefined
    else Value(res + W32(s[0] * Pow128(i)), s[1..])
  }

  // One byte that is not the last.
  lemma DeltaByte(n: nat, t: seq<nat>, i: nat, res: nat)
    requires i <= 4 && n >= 128 && (n % 128) * Pow128(i) < TWO_TO_THE_32
    ensures ParseDelta(Delta(n) + t, i, res) == ParseDelta(Delta(n / 128) + t, i + 1, res + (n % 128) * Pow128(i))
  {
    var d := n % 128 + 128;
    var s := Delta(n) + t;
    assert s[0] == d && s[1..] == Delta(n / 128) + t;
    assert d % 128 == n % 128;
    SmallW32((n % 128) * Pow128(i));
  }

  lemma LastByte(n: nat, t: seq<nat>, i: nat, res: nat)
    requires i <= 4 && n < 128 && n * Pow128(i) < TWO_TO_THE_32
    ensures ParseDelta(Delta(n) + t, i, res) == Value(res + n * Pow128(i), t)
  {
    assert ([n] + t)[1..] == t;
    SmallW32(n * Pow128(i));
  }

  // There is room for one more byte only below bit 28.
  lemma RoomLeft(n: nat, i: nat)
    requires i <= 4 && n >= 1 && n * Pow128(i + 1) < TWO_TO_THE_32
    ensures i <= 3
  {
    assert Pow128(3) == 128 * 128 * 128 && Pow128(5) == 128 * 128 * Pow128(3);
    if i == 4 {
      AtLeast(n, Pow128(5));
    }
  }

  lemma AtLeast(n: nat, p: nat)
    requires n >= 1
    ensures n * p >= p
  {
  }

  // aiger_read_delta inverts aiger_write_delta.
  lemma {:induction false} DeltaRoundTrip(n: nat, t: seq<nat>, i: nat, res: nat)
    requires i <= 4 && n * Pow128(i) < TWO_TO_THE_32
    ensures ParseDelta(Delta(n) + t, i, res) == Value(res + n * Pow128(i), t)
    decreases n
  {
    if n < 128 {
      LastByte(n, t, i, res);
    } else {
      SplitProduct(n, Pow128(i));
      DeltaByte(n, t, i, res);
      RoomLeft(n / 128, i);
      DeltaRoundTrip(n / 128, t, i + 1, res + (n % 128) * Pow128(i));
    }
  }

  lemma SplitProduct(n: nat, p: nat)
    ensures n * p == (n % 128) * p + (n / 128) * (128 * p)
    ensures (n % 128) * p <= n * p && (n / 128) * (128 * p) <= n * p
  {
    assert n == n % 128 + 128 * (n / 128);
    assert n * p == (n % 128 + 128 * (n / 128)) * p == (n % 128) * p + (128 * (n / 128)) * p;
    assert (128 * (n / 128)) * p == (n / 128) * (128 * p);
  }

  // The reader inverts decimal printing.
  lemma {:induction false} DecimalRoundTrip(n: nat, t: seq<nat>)
    requires n < TWO_TO_THE_32
    ensures Number(Decimal(n) + t, 0) == Number(t, n)
  {
    if n < 10 {
      NumberDigit(n, t, 0);
      assert Decimal(n) == [48 + n];
    } else {
      LastDigitApart(n, t);
      DecimalRoundTrip(n / 10, [48 + n % 10] + t);
      NumberDigit(n % 10, t, n / 10);
    }
  }

  lemma LastDigitApart(n: nat, t: seq<nat>)
    requires n >= 10
    ensures Decimal(n) + t == Decimal(n / 10) + ([48 + n % 10] + t)
  {
    assert Decimal(n) == Decimal(n / 10) + [48 + n % 10];
  }

  // One more digit.
  lemma NumberDigit(d: nat, t: seq<nat>, acc: nat)
    requires d < 10 && 10 * acc + d < TWO_TO_THE_32
    ensures Number([48 + d] + t, acc) == Number(t, 10 * acc + d)
  {
    assert ([48 + d] + t)[1..] == t;
    SmallW32(10 * acc + d);
  }

  lemma LiteralRoundTrip(n: nat, followedBy: nat, t: seq<nat>)
    requires n < TWO_TO_THE_32 && !IsDigit(followedBy)
    ensures Literal(Decimal(n) + ([followedBy] + t), followedBy) == Some((n, t))
  {
    var u := [followedBy] + t;
    DecimalRoundTrip(n, u);
    DecimalDigits(n);
    assert (Decimal(n) + u)[0] == Decimal(n)[0];
    assert u[1..] == t;
  }

  // k literals, one a line, none above the bound; those before are in acc.
  function LiteralList(s: seq<nat>, k: nat, maxvar: nat, acc: seq<nat>): Option<(seq<nat>, seq<nat>)>
    decreases k
  {
    if k == 0 then Some((acc, s))
    else match Literal(s, NEWLINE)
      case None => None
      case Some((v, t)) => if Lit2Var(v) > maxvar then None else LiteralList(t, k - 1, maxvar, acc + [v])
  }

  datatype AndRead = OneAnd(and: And, rest: seq<nat>) | BadAnd | UndefinedAnd

  // The two deltas of the AND whose left-hand side is lhs.
  function ParseAnd(s: seq<nat>, lhs: nat): AndRead {
    match ParseDelta(s, 0, 0)
    case Broken => BadAnd
    case Undefined => UndefinedAnd
    case Value(d0, t) =>
      if d0 > lhs then BadAnd
      else match ParseDelta(t, 0, 0)
        case Broken => BadAnd
        case Undefined => UndefinedAnd
        case Value(d1, u) => if d1 > lhs - d0 then BadAnd else OneAnd(And(lhs, lhs - d0, lhs - d0 - d1), u)
  }

  datatype AndsRead = Ands(ands: seq<And>, rest: seq<nat>) | BadAnds | UndefinedAnds

  // k ANDs after the one whose left-hand side is lhs; those before are in acc.
  function ParseAnds(s: seq<nat>, k: nat, lhs: nat, acc: seq<And>): AndsRead
    decreases k
  {
    if k == 0 then Ands(acc, s)
    else match ParseAnd(s, lhs + 2)
      case BadAnd => BadAnds
      case UndefinedAnd => UndefinedAnds
      case OneAnd(and, t) => ParseAnds(t, k - 1, lhs + 2, acc + [and])
  }

  // What the result is, with k ANDs left to read.
  ghost predicate AndsLeft(result: AndsRead, s: seq<nat>, k: nat, lhs: nat, acc: seq<And>) {
    result == ParseAnds(s, k, lhs, acc)
  }

  lemma AndsStep(result: AndsRead, s: seq<nat>, k: nat, lhs: nat, acc: seq<And>)
    requires k > 0 && AndsLeft(result, s, k, lhs, acc)
    ensures match ParseAnd(s, lhs + 2)
            case BadAnd => result == BadAnds
            case UndefinedAnd => result == UndefinedAnds
            case OneAnd(and, t) => AndsLeft(result, t, k - 1, lhs + 2, acc + [and])
  {
  }

  lemma AndsDone(result: AndsRead, s: seq<nat>, lhs: nat, acc: seq<And>)
    requires AndsLeft(result, s, 0, lhs, acc)
    ensures result == Ands(acc, s)
  {
  }

  datatype Header = Header(maxvar: nat, inputs: nat, latches: nat, outputs: nat, ands: nat)

  function Counts(s: seq<nat>): Option<(Header, seq<nat>)> {
    match Literal(s, SPACE)
    case None => None
    case Some((m, s1)) => match Literal(s1, SPACE)
      case None => None
      case Some((i, s2)) => match Literal(s2, SPACE)
        case None => None
        case Some((l, s3)) => match Literal(s3, SPACE)
          case None => None
          case Some((o, s4)) => match Literal(s4, NEWLINE)
            case None => None
            case Some((a, t)) => Some((Header(m, i, l, o, a), t))
  }

  // Huge: so many variables that literals leave 32 bits.
  datatype Outcome = Read(n: Aig) | Failed | AsciiFile | Huge | UndefinedShift

  function InputList(k: nat): (r: seq<nat>)
    ensures |r| == k && forall i: nat :: i < k ==> r[i] == Var2Lit(i + 1)
  {
    if k == 0 then [] else InputList(k - 1) + [Var2Lit(k)]
  }

  function LatchList(base: nat, nexts: seq<nat>): (r: seq<Latch>)
    ensures |r| == |nexts| && forall i: nat :: i < |r| ==> r[i] == Latch(Var2Lit(base + i + 1), nexts[i])
  {
    if nexts == [] then []
    else LatchList(base, nexts[..|nexts| - 1]) + [Latch(Var2Lit(base + |nexts|), nexts[|nexts| - 1])]
  }

  function ParseBody(h: Header, s: seq<nat>): Outcome {
    match LiteralList(s, h.latches, h.maxvar, [])
    case None => Failed
    case Some((nexts, s1)) => match LiteralList(s1, h.outputs, h.maxvar, [])
      case None => Failed
      case Some((outputs, s2)) => match ParseAnds(s2, h.ands, Var2Lit(h.inputs + h.latches), [])
        case BadAnds => Failed
        case UndefinedAnds => UndefinedShift
        case Ands(ands, t) => Read(Aig(h.maxvar, InputList(h.inputs), LatchList(h.inputs, nexts), outputs, ands))
  }

  // "aig " or "aag ".
  function Magic(s: seq<nat>): (r: Option<bool>)
    ensures r.Some? ==> |s| >= 4
  {
    if |s| < 4 || s[0] != 97 || (s[1] != 105 && s[1] != 97) || s[2] != 103 || s[3] != SPACE then None
    else Some(s[1] == 97)
  }

  // aiger_read_header and aiger_read_binary.
  function ParseFile(s: seq<nat>): Outcome {
    match Magic(s)
    case None => Failed
    case Some(ascii) => match Counts(s[4..])
      case None => Failed
      case Some((h, t)) =>
        if ascii then AsciiFile else ParseAfterHeader(h, t)
  }

  function ParseAfterHeader(h: Header, s: seq<nat>): Outcome {
    if W32(h.inputs + h.latches + h.ands) != h.maxvar then Failed
    else if h.inputs + h.latches + h.ands >= TWO_TO_THE_32 / 2 then Huge
    else ParseBody(h, s)
  }

  lemma DeltaMore(s: seq<nat>, i: nat, res: nat)
    requires s != [] && s[0] >= 128 && i < 5
    ensures ParseDelta(s, i, res) == ParseDelta(s[1..], i + 1, res + W32((s[0] % 128) * Pow128(i)))
  {
  }

  // ----- the reader: one character of lookahead -----

  class Reader {
    const input: seq<nat>
    var pos: nat
    var ch: int

    ghost predicate Valid()
      reads this
    {
      pos <= |input| && (ch == -1 ==> pos == |input|) && ch >= -1
    }

    // The current character and what follows; the end of file is -1.
    ghost function Rest(): seq<nat>
      requires Valid()
      reads this
    {
      if ch == -1 then [] else [ch] + input[pos..]
    }

    constructor (input: seq<nat>)
      ensures Valid() && Rest() == [SPACE] + input
    {
      this.input := input;
      pos, ch := 0, SPACE;
    }

    // aiger_next_ch.
    method NextCh() returns (res: int)
      requires Valid()
      modifies this
      ensures Valid() && res == ch
      ensures Rest() == if old(Rest()) == [] then [] else old(Rest())[1..]
      ensures ch == if Rest() == [] then -1 else Rest()[0]
    {
      if pos == |input| {
        res := -1;
      } else {
        res := input[pos];
        pos := pos + 1;
      }
      ch := res;
    }

    // aiger_read_number.
    method ReadNumber() returns (res: nat)
      requires Valid() && IsDigit(ch)
      modifies this
      ensures Valid() && Number(old(Rest()), 0) == (res, Rest())
    {
      ghost var start := Rest();
      res := ch - 48;
      assert Number(start, 0) == Number(start[1..], res);
      var next := NextCh();
      while IsDigit(next)
        invariant Valid() && next == ch && (ch == -1 <==> Rest() == [])
        invariant Number(start, 0) == Number(Rest(), res)
        decreases |Rest()|
      {
        res := W32(10 * res + (ch - 48));
        next := NextCh();
      }
    }

    // aiger_read_literal.
    method ReadLiteral(followedBy: nat) returns (r: Option<nat>)
      requires Valid()
      modifies this
      ensures Valid()
      ensures match Literal(old(Rest()), followedBy) { case None => r == None case Some((v, t)) => r == Some(v) && Rest() == t }
    {
      if !IsDigit(ch) {
        return None;
      }
      var res := ReadNumber();
      if ch != followedBy {
        return None;
      }
      var next := NextCh();
      return Some(res);
    }

    method ReadDeltaByte(i: nat, res: nat) returns (res': nat)
      requires Valid() && ch >= 128 && i < 5
      modifies this
      ensures Valid() && |Rest()| < |old(Rest())|
      ensures ParseDelta(old(Rest()), i, res) == ParseDelta(Rest(), i + 1, res')
    {
      DeltaMore(Rest(), i, res);
      res' := res + W32((ch % 128) * Pow128(i));
      var next := NextCh();
    }

    // The bytes of a delta with their top bit set.
    method ReadDeltaBytes() returns (ok: bool, i: nat, res: nat)
      requires Valid() && ch != -1
      modifies this
      ensures Valid() && i <= 5
      ensures ok ==> 0 <= ch < 128 && ParseDelta(old(Rest()), 0, 0) == ParseDelta(Rest(), i, res)
      ensures !ok ==> ParseDelta(old(Rest()), 0, 0) == Broken
    {
      ghost var start := Rest();
      i, res := 0, 0;
      while ch >= 128 && i < 5
        invariant Valid() && i <= 5
        invariant ParseDelta(start, 0, 0) == ParseDelta(Rest(), i, res)
        decreases |Rest()|
      {
        res := ReadDeltaByte(i, res);
        i := i + 1;
      }
      ok := 0 <= ch < 128;
    }

    method ReadLastByte(i: nat, res: nat) returns (r: Option<nat>)
      requires Valid() && 0 <= ch < 128 && i < 5
      modifies this
      ensures Valid() && r.Some? && ParseDelta(old(Rest()), i, res) == Value(r.value, Rest())
    {
      r := Some(res + W32(ch * Pow128(i)));
      var next := NextCh();
    }

    // aiger_read_delta.
    method ReadDelta() returns (r: Option<nat>, undefined: bool)
      requires Valid()
      modifies this
      ensures Valid()
      ensures match ParseDelta(old(Rest()), 0, 0)
              case Value(v, t) => !undefined && r == Some(v) && Rest() == t
              case Broken => !undefined && r == None
              case Undefined => undefined
    {
      r, undefined := None, false;
      if ch != -1 {
        var ok, i, res := ReadDeltaBytes();
        if ok && i == 5 {
          undefined := ch < 8;
        } else if ok {
          r := ReadLastByte(i, res);
        }
      }
    }

    // The loops over latches and outputs.
    method ReadLiterals(k: nat, maxvar: nat) returns (r: Option<seq<nat>>)
      requires Valid()
      modifies this
      ensures Valid()
      ensures match LiteralList(old(Rest()), k, maxvar, []) { case None => r == None case Some((lits, t)) => r == Some(lits) && Rest() == t }
    {
      var acc: seq<nat> := [];
      ghost var start := Rest();
      var i := 0;
      while i < k
        invariant 0 <= i <= k && Valid()
        invariant LiteralList(start, k, maxvar, []) == LiteralList(Rest(), k - i, maxvar, acc)
      {
        var lit := ReadLiteral(NEWLINE);
        if lit == None || Lit2Var(lit.value) > maxvar {
          return None;
        }
        acc := acc + [lit.value];
        i := i + 1;
      }
      return Some(acc);
    }

    // Both deltas of one AND.
    method ReadAnd(lhs: nat) returns (r: Option<And>, undefined: bool)
      requires Valid()
      modifies this
      ensures Valid()
      ensures match ParseAnd(old(Rest()), lhs)
              case OneAnd(and, t) => !undefined && r == Some(and) && Rest() == t
              case BadAnd => !undefined && r == None
              case UndefinedAnd => undefined
    {
      r := None;
      var delta;
      delta, undefined := ReadDelta();
      if !undefined && delta != None && delta.value <= lhs {
        r, undefined := ReadRhs1(lhs, lhs - delta.value);
      }
    }

    // The second delta of an AND.
    method ReadRhs1(lhs: nat, rhs0: nat) returns (r: Option<And>, undefined: bool)
      requires Valid()
      modifies this
      ensures Valid()
      ensures match ParseDelta(old(Rest()), 0, 0)
              case Broken => !undefined && r == None
              case Undefined => undefined
              case Value(d, t) => !undefined && if d > rhs0 then r == None else r == Some(And(lhs, rhs0, rhs0 - d)) && Rest() == t
    {
      r := None;
      var delta;
      delta, undefined := ReadDelta();
      if !undefined && delta != None && delta.value <= rhs0 {
        r := Some(And(lhs, rhs0, rhs0 - delta.value));
      }
    }

    // One step of the loop below.
    method NextAnd(k: nat, lhs: nat, ghost acc: seq<And>, ghost result: AndsRead) returns (r: Option<And>, undefined: bool)
      requires Valid() && k > 0 && AndsLeft(result, Rest(), k, lhs, acc)
      modifies this
      ensures Valid()
      ensures undefined ==> result == UndefinedAnds
      ensures !undefined ==> if r == None then result == BadAnds else AndsLeft(result, Rest(), k - 1, lhs + 2, acc + [r.value])
    {
      AndsStep(result, Rest(), k, lhs, acc);
      r, undefined := ReadAnd(lhs + 2);
    }

    // aiger_read_binary.
    method ReadAnds(k: nat, last: nat) returns (r: Option<seq<And>>, undefined: bool)
      requires Valid()
      modifies this
      ensures Valid()
      ensures match ParseAnds(old(Rest()), k, last, [])
              case Ands(ands, t) => !undefined && r == Some(ands) && Rest() == t
              case BadAnds => !undefined && r == None
              case UndefinedAnds => undefined
    {
      ghost var result := ParseAnds(Rest(), k, last, []);
      r, undefined := ReadAllAnds(k, last, result);
    }

    method ReadAllAnds(k: nat, last: nat, ghost result: AndsRead) returns (r: Option<seq<And>>, undefined: bool)
      requires Valid() && AndsLeft(result, Rest(), k, last, [])
      modifies this
      ensures Valid()
      ensures match result
              case Ands(ands, t) => !undefined && r == Some(ands) && Rest() == t
              case BadAnds => !undefined && r == None
              case UndefinedAnds => undefined
    {
      var acc: seq<And> := [];
      var i, lhs: nat := 0, last;
      undefined := false;
      while i < k
        invariant 0 <= i <= k && Valid() && !undefined
        invariant AndsLeft(result, Rest(), k - i, lhs, acc)
      {
        var and;
        and, undefined := NextAnd(k - i, lhs, acc, result);
        if undefined || and == None {
          return None, undefined;
        }
        lhs := lhs + 2;
        acc := acc + [and.value];
        i := i + 1;
      }
      AndsDone(result, Rest(), lhs, acc);
      return Some(acc), false;
    }

    method ReadCounts() returns (r: Option<Header>)
      requires Valid()
      modifies this
      ensures Valid()
      ensures match Counts(old(Rest())) { case None => r == None case Some((h, t)) => r == Some(h) && Rest() == t }
    {
      var m := ReadLiteral(SPACE);
      if m == None { return None; }
      var i := ReadLiteral(SPACE);
      if i == None { return None; }
      var l := ReadLiteral(SPACE);
      if l == None { return None; }
      var o := ReadLiteral(SPACE);
      if o == None { return None; }
      var a := ReadLiteral(NEWLINE);
      if a == None { return None; }
      return Some(Header(m.value, i.value, l.value, o.value, a.value));
    }

    // The part of a binary file after the header line.
    method ReadBody(h: Header) returns (r: Outcome)
      requires Valid()
      modifies this
      ensures r == ParseBody(h, old(Rest()))
    {
      var nexts := ReadLiterals(h.latches, h.maxvar);
      if nexts == None { return Failed; }
      var outputs := ReadLiterals(h.outputs, h.maxvar);
      if outputs == None { return Failed; }
      var ands, undefined := ReadAnds(h.ands, Var2Lit(h.inputs + h.latches));
      if undefined { return UndefinedShift; }
      if ands == None { return Failed; }
      return Read(Aig(h.maxvar, InputList(h.inputs), LatchList(h.inputs, nexts.value), outputs.value, ands.value));
    }
  }

  method ReadMagic(reader: Reader, ghost input: seq<nat>) returns (r: Option<bool>)
    requires reader.Valid() && reader.Rest() == [SPACE] + input
    modifies reader
    ensures reader.Valid() && r == Magic(input) && (r.Some? ==> reader.Rest() == input[4..])
  {
    assert ([SPACE] + input)[1..] == input;
    var ch := reader.NextCh();
    if ch != 97 { return None; }
    var mode := reader.NextCh();
    if mode != 105 && mode != 97 { return None; }
    ch := reader.NextCh();
    if ch != 103 { return None; }
    ch := reader.NextCh();
    if ch != SPACE { return None; }
    ch := reader.NextCh();
    return Some(mode == 97);
  }

  method ReadFile(input: seq<nat>) returns (r: Outcome)
    ensures r == ParseFile(input)
  {
    var reader := new Reader(input);
    var ascii := ReadMagic(reader, input);
    if ascii == None { return Failed; }
    var counts := reader.ReadCounts();
    if counts == None { return Failed; }
    if ascii.value { return AsciiFile; }
    var h := counts.value;
    if W32(h.inputs + h.latches + h.ands) != h.maxvar { return Failed; }
    if h.inputs + h.latches + h.ands >= TWO_TO_THE_32 / 2 { return Huge; }
    r := reader.ReadBody(h);
  }

  // ----- the round trip -----

  lemma {:induction false} LinesRoundTrip(lits: seq<nat>, maxvar: nat, acc: seq<nat>, t: seq<nat>)
    requires forall i :: 0 <= i < |lits| ==> lits[i] < TWO_TO_THE_32 && Lit2Var(lits[i]) <= maxvar
    ensures LiteralList(Lines(lits) + t, |lits|, maxvar, acc) == Some((acc + lits, t))
  {
    if lits == [] {
      assert Lines(lits) + t == t && acc + lits == acc;
    } else {
      LinesFront(lits);
      var rest := Lines(lits[1..]) + t;
      assert Lines(lits) + t == Decimal(lits[0]) + ([NEWLINE] + rest);
      LiteralRoundTrip(lits[0], NEWLINE, rest);
      LinesRoundTrip(lits[1..], maxvar, acc + [lits[0]], t);
      assert acc + [lits[0]] + lits[1..] == acc + lits;
    }
  }

  lemma {:induction false} LinesFront(lits: seq<nat>)
    requires lits != []
    ensures Lines(lits) == Decimal(lits[0]) + [NEWLINE] + Lines(lits[1..])
  {
    if |lits| > 1 {
      var front := lits[..|lits| - 1];
      LinesFront(front);
      assert front[1..] == lits[1..][..|lits| - 2];
    }
  }

  ghost predicate AndsFrom(ands: seq<And>, lhs: nat) {
    forall i: nat :: i < |ands| ==>
      ands[i].lhs == lhs + 2 * (i + 1) && ands[i].lhs < TWO_TO_THE_32 && ands[i].lhs >= ands[i].rhs0 >= ands[i].rhs1
  }

  lemma {:induction false} DeltasFront(ands: seq<And>)
    requires Descending(ands) && ands != []
    ensures Deltas(ands) == AndBytes(ands[0]) + Deltas(ands[1..])
  {
    if |ands| == 1 {
      assert ands[..0] == [] && ands[1..] == [];
    } else {
      var front, tail, last := ands[..|ands| - 1], ands[1..], ands[|ands| - 1];
      DeltasFront(front);
      assert front[1..] == tail[..|tail| - 1] && tail[|tail| - 1] == last && front[0] == ands[0];
      Regroup(AndBytes(ands[0]), Deltas(front[1..]), AndBytes(last));
    }
  }

  lemma Regroup(a: seq<nat>, b: seq<nat>, c: seq<nat>)
    ensures a + b + c == a + (b + c)
  {
  }

  // One AND, written and read.
  lemma AndRoundTrip(and: And, u: seq<nat>)
    requires and.lhs < TWO_TO_THE_32 && and.lhs >= and.rhs0 >= and.rhs1
    ensures ParseAnd(AndBytes(and) + u, and.lhs) == OneAnd(and, u)
  {
    AndReadBack(and, u);
  }

  ghost predicate ReadsDelta(s: seq<nat>, n: nat, t: seq<nat>) {
    ParseDelta(s, 0, 0) == Value(n, t)
  }

  ghost predicate ReadsAnd(s: seq<nat>, and: And, u: seq<nat>) {
    ParseAnd(s, and.lhs) == OneAnd(and, u)
  }

  lemma AndReadBack(and: And, u: seq<nat>)
    requires and.lhs < TWO_TO_THE_32 && and.lhs >= and.rhs0 >= and.rhs1
    ensures ReadsAnd(AndBytes(and) + u, and, u)
  {
    var d0, d1 := and.lhs - and.rhs0, and.rhs0 - and.rhs1;
    Regroup(Delta(d0), Delta(d1), u);
    FirstDelta(d0, Delta(d1) + u);
    FirstDelta(d1, u);
    DeltasOfAnd(AndBytes(and) + u, and, d0, d1, Delta(d1) + u, u);
  }

  lemma FirstDelta(n: nat, t: seq<nat>)
    requires n < TWO_TO_THE_32
    ensures ReadsDelta(Delta(n) + t, n, t)
  {
    DeltaRoundTrip(n, t, 0, 0);
  }

  lemma DeltasOfAnd(s: seq<nat>, and: And, d0: nat, d1: nat, t: seq<nat>, u: seq<nat>)
    requires and.lhs >= and.rhs0 >= and.rhs1 && d0 == and.lhs - and.rhs0 && d1 == and.rhs0 - and.rhs1
    requires ReadsDelta(s, d0, t) && ReadsDelta(t, d1, u)
    ensures ReadsAnd(s, and, u)
  {
    assert And(and.lhs, and.lhs - d0, and.lhs - d0 - d1) == and;
  }

  lemma {:induction false} AndsRoundTrip(ands: seq<And>, lhs: nat, acc: seq<And>, t: seq<nat>)
    requires AndsFrom(ands, lhs)
    ensures Descending(ands) && ParseAnds(Deltas(ands) + t, |ands|, lhs, acc) == Ands(acc + ands, t)
    decreases |ands|
  {
    if ands == [] {
      assert Deltas(ands) + t == t && acc + ands == acc;
    } else {
      var and, u := ands[0], Deltas(ands[1..]) + t;
      AndsFromTail(ands, lhs);
      AndsRoundTrip(ands[1..], lhs + 2, acc + [and], t);
      AndRoundTrip(and, u);
      DeltasFront(ands);
      Regroup(AndBytes(and), Deltas(ands[1..]), t);
      SameSplit(acc, ands);
    }
  }

  lemma SameSplit(acc: seq<And>, ands: seq<And>)
    requires ands != []
    ensures acc + [ands[0]] + ands[1..] == acc + ands
  {
  }

  lemma AndsFromTail(ands: seq<And>, lhs: nat)
    requires AndsFrom(ands, lhs) && ands != []
    ensures AndsFrom(ands[1..], lhs + 2) && Descending(ands) && Descending(ands[1..])
    ensures ands[0].lhs == lhs + 2 && ands[0].lhs < TWO_TO_THE_32
  {
    forall i: nat | i < |ands[1..]|
      ensures ands[1..][i].lhs == lhs + 2 + 2 * (i + 1) && ands[1..][i].lhs < TWO_TO_THE_32
      ensures ands[1..][i].lhs >= ands[1..][i].rhs0 >= ands[1..][i].rhs1
    {
      assert ands[1..][i] == ands[i + 1];
    }
  }

  lemma CountsRoundTrip(h: Header, t: seq<nat>)
    requires h.maxvar < TWO_TO_THE_32 && h.inputs < TWO_TO_THE_32 && h.latches < TWO_TO_THE_32
    requires h.outputs < TWO_TO_THE_32 && h.ands < TWO_TO_THE_32
    ensures var s := HeaderText(h.maxvar, h.inputs, h.latches, h.outputs, h.ands) + t;
            s[..4] == [97, 105, 103, SPACE] && Counts(s[4..]) == Some((h, t))
  {
    var s4 := Decimal(h.ands) + ([NEWLINE] + t);
    var s3 := Decimal(h.outputs) + ([SPACE] + s4);
    var s2 := Decimal(h.latches) + ([SPACE] + s3);
    var s1 := Decimal(h.inputs) + ([SPACE] + s2);
    var s0 := Decimal(h.maxvar) + ([SPACE] + s1);
    var s := HeaderText(h.maxvar, h.inputs, h.latches, h.outputs, h.ands) + t;
    assert s == [97, 105, 103, SPACE] + s0;
    LiteralRoundTrip(h.maxvar, SPACE, s1);
    LiteralRoundTrip(h.inputs, SPACE, s2);
    LiteralRoundTrip(h.latches, SPACE, s3);
    LiteralRoundTrip(h.outputs, SPACE, s4);
    LiteralRoundTrip(h.ands, NEWLINE, t);
  }

  // Numbers the file holds fit 32 bits, literals included.
  ghost predicate Fits(n: Aig) {
    && n.maxvar < TWO_TO_THE_32 / 2 && |n.outputs| < TWO_TO_THE_32
    && |n.inputs| + |n.latches| + |n.ands| <= n.maxvar
    && (forall i :: 0 <= i < |n.latches| ==> Lit2Var(n.latches[i].next) <= n.maxvar)
    && forall i :: 0 <= i < |n.outputs| ==> Lit2Var(n.outputs[i]) <= n.maxvar
  }

  lemma HeaderRoundTrip(h: Header, body: seq<nat>)
    requires h.maxvar < TWO_TO_THE_32 && h.inputs < TWO_TO_THE_32 && h.latches < TWO_TO_THE_32
    requires h.outputs < TWO_TO_THE_32 && h.ands < TWO_TO_THE_32
    ensures ParseFile(HeaderText(h.maxvar, h.inputs, h.latches, h.outputs, h.ands) + body)
            == ParseAfterHeader(h, body)
  {
    var s := HeaderText(h.maxvar, h.inputs, h.latches, h.outputs, h.ands) + body;
    CountsRoundTrip(h, body);
    MagicText(s);
  }

  ghost function HeaderOf(n: Aig): Header {
    Header(n.maxvar, |n.inputs|, |n.latches|, |n.outputs|, |n.ands|)
  }

  // What was written is read back, if and only if maxvar counts the variables.
  lemma FileRoundTrip(n: Aig)
    requires Reencoded(n) && Fits(n)
    ensures ParseFile(FileText(n)) == if n.maxvar == |n.inputs| + |n.latches| + |n.ands| then Read(n) else Failed
  {
    var h := HeaderOf(n);
    FileSplit(n);
    HeaderRoundTrip(h, BodyText(n));
    AfterHeaderRoundTrip(n);
  }

  lemma AfterHeaderRoundTrip(n: Aig)
    requires Reencoded(n) && Fits(n)
    ensures ParseAfterHeader(HeaderOf(n), BodyText(n))
            == if n.maxvar == |n.inputs| + |n.latches| + |n.ands| then Read(n) else Failed
  {
    SmallW32(|n.inputs| + |n.latches| + |n.ands|);
    if n.maxvar == |n.inputs| + |n.latches| + |n.ands| {
      BodyRoundTrip(n);
    }
  }

  ghost function BodyText(n: Aig): seq<nat>
    requires Reencoded(n)
  {
    Lines(Nexts(n.latches)) + (Lines(n.outputs) + (Deltas(n.ands) + []))
  }

  lemma FileSplit(n: Aig)
    requires Reencoded(n)
    ensures FileText(n) == HeaderText(n.maxvar, |n.inputs|, |n.latches|, |n.outputs|, |n.ands|) + BodyText(n)
  {
    var head := HeaderText(n.maxvar, |n.inputs|, |n.latches|, |n.outputs|, |n.ands|);
    Grouping(head, Lines(Nexts(n.latches)), Lines(n.outputs), Deltas(n.ands));
  }

  lemma SmallW32(x: nat)
    requires x < TWO_TO_THE_32
    ensures W32(x) == x
  {
  }

  lemma Grouping(a: seq<nat>, b: seq<nat>, c: seq<nat>, d: seq<nat>)
    ensures a + b + c + d == a + (b + (c + (d + [])))
  {
  }

  lemma MagicText(s: seq<nat>)
    requires |s| >= 4 && s[..4] == [97, 105, 103, SPACE]
    ensures Magic(s) == Some(false)
  {
    assert s[0] == s[..4][0] && s[1] == s[..4][1] && s[2] == s[..4][2] && s[3] == s[..4][3];
  }

  lemma BodyRoundTrip(n: Aig)
    requires Reencoded(n) && Fits(n) && n.maxvar == |n.inputs| + |n.latches| + |n.ands|
    ensures ParseBody(HeaderOf(n), BodyText(n)) == Read(n)
  {
    var s2 := Deltas(n.ands) + [];
    var s1 := Lines(n.outputs) + s2;
    ListsSame(n);
    LatchLines(n, s1);
    OutputLines(n, s2);
    AndDeltas(n);
    ParseBodyIs(HeaderOf(n), BodyText(n), Nexts(n.latches), s1, n.outputs, s2, n.ands);
  }

  // The three parts of a body, read one after the other.
  lemma ParseBodyIs(h: Header, s: seq<nat>, nexts: seq<nat>, s1: seq<nat>, outputs: seq<nat>, s2: seq<nat>, ands: seq<And>)
    requires LiteralList(s, h.latches, h.maxvar, []) == Some((nexts, s1))
    requires LiteralList(s1, h.outputs, h.maxvar, []) == Some((outputs, s2))
    requires ParseAnds(s2, h.ands, Var2Lit(h.inputs + h.latches), []) == Ands(ands, [])
    ensures ParseBody(h, s) == Read(Aig(h.maxvar, InputList(h.inputs), LatchList(h.inputs, nexts), outputs, ands))
  {
  }

  lemma LatchLines(n: Aig, t: seq<nat>)
    requires Fits(n)
    ensures LiteralList(Lines(Nexts(n.latches)) + t, |n.latches|, n.maxvar, []) == Some((Nexts(n.latches), t))
  {
    LinesRoundTrip(Nexts(n.latches), n.maxvar, [], t);
    assert [] + Nexts(n.latches) == Nexts(n.latches);
  }

  lemma OutputLines(n: Aig, t: seq<nat>)
    requires Fits(n)
    ensures LiteralList(Lines(n.outputs) + t, |n.outputs|, n.maxvar, []) == Some((n.outputs, t))
  {
    LinesRoundTrip(n.outputs, n.maxvar, [], t);
    assert [] + n.outputs == n.outputs;
  }

  lemma AndDeltas(n: Aig)
    requires Reencoded(n) && Fits(n)
    ensures ParseAnds(Deltas(n.ands) + [], |n.ands|, Var2Lit(|n.inputs| + |n.latches|), []) == Ands(n.ands, [])
  {
    assert AndsFrom(n.ands, Var2Lit(|n.inputs| + |n.latches|));
    AndsRoundTrip(n.ands, Var2Lit(|n.inputs| + |n.latches|), [], []);
    assert [] + n.ands == n.ands;
  }

  lemma ListsSame(n: Aig)
    requires Reencoded(n)
    ensures InputList(|n.inputs|) == n.inputs && LatchList(|n.inputs|, Nexts(n.latches)) == n.latches
  {
  }

  lemma WellFormedFits(n: Aig, types: seq<Type>)
    requires WellFormed(n, types) && Reencoded(n) && n.maxvar < TWO_TO_THE_32 / 2 && |n.outputs| < TWO_TO_THE_32
    ensures Fits(n)
  {
    if |n.ands| > 0 {
      assert AndMatch(n, types, |n.ands| - 1);
    } else if |n.latches| > 0 {
      assert LatchMatch(n, types, |n.latches| - 1);
    } else if |n.inputs| > 0 {
      assert InputMatch(n, types, |n.inputs| - 1);
    }
    assert forall i :: 0 <= i < |n.latches| ==> Defined(types, n.maxvar, n.latches[i].next);
    assert forall i :: 0 <= i < |n.outputs| ==> Defined(types, n.maxvar, n.outputs[i]);
  }

  // Writing an AIG and reading the file gives the renumbered AIG, which behaves the
  // same; an AIG that needed no renumbering and has unused numbers is not read back.
  method WriteThenRead(a: Aiger) returns (r: Outcome)
    requires a.error.None? && WellFormed(Public(a), a.types) && Unstacked(a.types)
    requires a.maxvar < TWO_TO_THE_32 / 2 && |a.outputs| < TWO_TO_THE_32
    modifies a`maxvar, a`inputs, a`latches, a`outputs, a`ands, a`types
    ensures r == if old(Reencoded(Public(a)) && a.maxvar != |a.inputs| + |a.latches| + |a.ands|) then Failed else Read(Public(a))
    ensures Equivalent(old(Public(a)), Public(a))
  {
    var file := WriteBinary(a);
    WellFormedFits(Public(a), a.types);
    FileRoundTrip(Public(a));
    r := ReadFile(file);
  }
}
