// The XOR file format (src/formats/xorbdd.cc): a line is a list of products, each
// followed by a space, and the value their sum must have.

module XorText {
  import opened Basics
  import opened Decimals

  const NEWLINE: nat := 10
  const SPACE: nat := 32
  const SEMICOLON: nat := 59
  const EQUALS: nat := 61
  const LETTER_X: nat := 120

  // The digits of a variable.
  type Name = seq<nat>

  datatype Equation = Equation(products: seq<seq<Name>>, one: bool)

  predicate ValidName(n: Name) {
    |n| > 0 && AllDigits(n) && n[0] != 48
  }

  predicate ValidProduct(p: seq<Name>) {
    p != [] && forall k :: 0 <= k < |p| ==> ValidName(p[k])
  }

  predicate ValidEquation(e: Equation) {
    e.products != [] && forall k :: 0 <= k < |e.products| ==> ValidProduct(e.products[k])
  }

  // ----- text -----

  function ProductText(p: seq<Name>): seq<nat> {
    if p == [] then [] else [LETTER_X] + p[0] + ProductText(p[1..])
  }

  function SpacedText(ps: seq<seq<Name>>): seq<nat> {
    if ps == [] then [] else ProductText(ps[0]) + [SPACE] + SpacedText(ps[1..])
  }

  function SignText(one: bool): seq<nat> {
    [EQUALS, SPACE, if one then 49 else 48]
  }

  function EquationText(e: Equation): seq<nat> {
    SpacedText(e.products) + SignText(e.one)
  }

  // A line without an equation is printed for the false function.
  function LineText(line: Option<Equation>): seq<nat> {
    (if line.Some? then EquationText(line.value) else []) + [NEWLINE]
  }

  function FileText(lines: seq<Option<Equation>>): seq<nat> {
    if lines == [] then [] else LineText(lines[0]) + FileText(lines[1..])
  }

  lemma {:induction false} ProductTextMore(p: seq<Name>, n: Name)
    ensures ProductText(p + [n]) == ProductText(p) + [LETTER_X] + n
  {
    if p == [] {
      assert (p + [n])[1..] == [];
    } else {
      ProductTextMore(p[1..], n);
      assert (p + [n])[1..] == p[1..] + [n];
    }
  }

  lemma Regroup(a: seq<nat>, b: seq<nat>, c: seq<nat>, d: seq<nat>)
    ensures a + (b + c + d) == a + b + c + d
    ensures a + (b + c) == a + b + c
  {
  }

  lemma {:induction false} SpacedTextMore(ps: seq<seq<Name>>, p: seq<Name>)
    ensures SpacedText(ps + [p]) == SpacedText(ps) + ProductText(p) + [SPACE]
  {
    if ps == [] {
      assert (ps + [p])[1..] == [];
    } else {
      SpacedTextMore(ps[1..], p);
      assert (ps + [p])[1..] == ps[1..] + [p];
      Regroup(ProductText(ps[0]) + [SPACE], SpacedText(ps[1..]), ProductText(p), [SPACE]);
    }
  }

  lemma {:induction false} FileTextMore(lines: seq<Option<Equation>>, line: Option<Equation>)
    ensures FileText(lines + [line]) == FileText(lines) + LineText(line)
  {
    if lines == [] {
      assert (lines + [line])[1..] == [];
    } else {
      FileTextMore(lines[1..], line);
      assert (lines + [line])[1..] == lines[1..] + [line];
      Regroup(LineText(lines[0]), FileText(lines[1..]), LineText(line), []);
    }
  }

  // ----- what a byte sequence means to the reader -----

  datatype Symbol = Variable(name: Name) | Space | Sign(one: bool) | End | Bad

  function Digits(s: seq<nat>): (r: (Name, seq<nat>))
    ensures |r.0| + |r.1| == |s|
  {
    if s != [] && IsDigit(s[0]) then
      var (d, t) := Digits(s[1..]);
      ([s[0]] + d, t)
    else ([], s)
  }

  function AfterLine(s: seq<nat>): (r: seq<nat>)
    ensures |r| <= |s| && (s != [] ==> |r| < |s|)
  {
    if s == [] then [] else if s[0] == NEWLINE then s[1..] else AfterLine(s[1..])
  }

  // Only spaces may follow a sign on its line.
  function Trailing(s: seq<nat>): (r: Option<seq<nat>>)
    ensures r.Some? ==> |r.value| <= |s|
  {
    if s == [] || s[0] == NEWLINE || s[0] == SEMICOLON then Some(s)
    else if s[0] == SPACE then Trailing(s[1..])
    else None
  }

  // getNextSymbol, without lists of initial branches.
  function NextSymbol(s: seq<nat>): (r: (Symbol, seq<nat>))
    ensures |r.1| <= |s| && (r.0.Variable? || r.0.Space? || r.0.Sign? ==> |r.1| < |s|)
    decreases |s|
  {
    if s == [] then (End, [])
    else if s[0] == SEMICOLON then NextSymbol(AfterLine(s))
    else if s[0] == NEWLINE then NextSymbol(s[1..])
    else if s[0] == SPACE then (Space, s[1..])
    else if s[0] == EQUALS then SignSymbol(s)
    else if s[0] == LETTER_X then VariableSymbol(s)
    else (Bad, [])
  }

  function SignSymbol(s: seq<nat>): (r: (Symbol, seq<nat>))
    ensures |r.1| <= |s| && (r.0.Sign? ==> |r.1| < |s|) && (r.0.Sign? || r.0.Bad?)
  {
    if |s| < 3 || s[1] != SPACE || (s[2] != 48 && s[2] != 49) then (Bad, [])
    else match Trailing(s[3..])
      case None => (Bad, [])
      case Some(t) => (Sign(s[2] == 49), t)
  }

  // A number must follow the letter, and something must follow the number.
  function VariableSymbol(s: seq<nat>): (r: (Symbol, seq<nat>))
    requires s != []
    ensures |r.1| <= |s| && (r.0.Variable? ==> |r.1| < |s|) && (r.0.Variable? || r.0.Bad?)
  {
    if |s| < 2 || !IsDigit(s[1]) || s[1] == 48 then (Bad, [])
    else
      var (d, t) := Digits(s[1..]);
      if t == [] then (Bad, []) else (Variable(d), t)
  }

  // From the symbol p on: the variables up to the next other symbol.
  function ParseProduct(p: Symbol, s: seq<nat>, product: seq<Name>): (r: (seq<Name>, Symbol, seq<nat>))
    ensures |r.2| <= |s| && !r.1.Variable? && (p.Variable? || product != [] ==> r.0 != [])
    decreases |s|, if p.Variable? then 1 else 0
  {
    if !p.Variable? then (product, p, s)
    else
      var (q, t) := NextSymbol(s);
      ParseProduct(q, t, product + [p.name])
  }

  predicate Filled(ps: seq<seq<Name>>) {
    forall k :: 0 <= k < |ps| ==> ps[k] != []
  }

  // The products up to the sign; there is one space after each.
  function ParseProducts(p: Symbol, s: seq<nat>, spaces: nat, products: seq<seq<Name>>): (r: Option<(Equation, seq<nat>)>)
    ensures r.Some? ==> |r.value.1| <= |s|
    ensures r.Some? && (spaces >= 1 || !p.Space?) && Filled(products) ==> Filled(r.value.0.products)
    decreases |s|, if p.Bad? then 0 else 1
  {
    if p.Sign? then Some((Equation(products, p.one), s))
    else
      var (product, q, t) := ParseProduct(p, s, []);
      var spaces' := if p.Variable? then 1 else spaces + 1;
      if !q.Space? || spaces' > 1 then None
      else
        var (next, u) := NextSymbol(t);
        if next.End? then None else ParseProducts(next, u, spaces', products + [product])
  }

  // ----- reading what was written -----

  lemma {:induction false} DigitsRead(n: Name, t: seq<nat>)
    requires AllDigits(n) && (t == [] || !IsDigit(t[0]))
    ensures Digits(n + t) == (n, t)
  {
    if n == [] {
      assert n + t == t;
    } else {
      DigitsRead(n[1..], t);
      assert (n + t)[1..] == n[1..] + t;
      assert (n + t)[0] == n[0] && [n[0]] + n[1..] == n;
    }
  }

  lemma VariableRead(n: Name, t: seq<nat>)
    requires ValidName(n) && t != [] && !IsDigit(t[0])
    ensures NextSymbol([LETTER_X] + n + t) == (Variable(n), t)
  {
    var s := [LETTER_X] + n + t;
    assert s[1..] == n + t && s[1] == n[0];
    DigitsRead(n, t);
  }

  // What follows a name is no digit.
  lemma NoDigitAhead(p: seq<Name>, t: seq<nat>)
    requires t != [] && t[0] == SPACE
    ensures ProductText(p) + t != [] && !IsDigit((ProductText(p) + t)[0])
  {
    if p == [] {
      assert ProductText(p) + t == t;
    }
  }

  lemma {:induction false} ProductRead(p: seq<Name>, t: seq<nat>, product: seq<Name>)
    requires ValidProduct(p) && t != [] && t[0] == SPACE
    ensures ParseProduct(Variable(p[0]), ProductText(p[1..]) + t, product) == (product + p, Space, t[1..])
    decreases |p|
  {
    var s := ProductText(p[1..]) + t;
    if |p| == 1 {
      assert s == t && product + [p[0]] == product + p;
    } else {
      NoDigitAhead(p[2..], t);
      assert p[1..][0] == p[1] && p[1..][1..] == p[2..];
      assert s == [LETTER_X] + p[1] + (ProductText(p[2..]) + t);
      VariableRead(p[1], ProductText(p[2..]) + t);
      ProductRead(p[1..], t, product + [p[0]]);
      assert product + [p[0]] + p[1..] == product + p;
    }
  }

  lemma FirstRead(p: seq<Name>, t: seq<nat>)
    requires ValidProduct(p) && t != [] && t[0] == SPACE
    ensures NextSymbol(ProductText(p) + t) == (Variable(p[0]), ProductText(p[1..]) + t)
  {
    NoDigitAhead(p[1..], t);
    assert ProductText(p) + t == [LETTER_X] + p[0] + (ProductText(p[1..]) + t);
    VariableRead(p[0], ProductText(p[1..]) + t);
  }

  lemma SignRead(one: bool, t: seq<nat>)
    requires t != [] && t[0] == NEWLINE
    ensures NextSymbol(SignText(one) + t) == (Sign(one), t)
  {
    var s := SignText(one) + t;
    assert s[3..] == t && s[0] == EQUALS && s[1] == SPACE && s[2] == if one then 49 else 48;
    assert Trailing(t) == Some(t);
    assert SignSymbol(s) == (Sign(one), t);
  }

  // What follows the first product.
  function AfterFirst(ps: seq<seq<Name>>, one: bool, t: seq<nat>): seq<nat>
    requires ps != []
  {
    [SPACE] + (SpacedText(ps[1..]) + (SignText(one) + t))
  }

  lemma FirstProduct(ps: seq<seq<Name>>, one: bool, t: seq<nat>)
    requires ps != []
    ensures SpacedText(ps) + (SignText(one) + t) == ProductText(ps[0]) + AfterFirst(ps, one, t)
  {
    Regroup(ProductText(ps[0]), [SPACE], SpacedText(ps[1..]), SignText(one) + t);
  }

  // From the first name on, the products and the sign are read back.
  lemma {:induction false} ProductsRead(ps: seq<seq<Name>>, one: bool, t: seq<nat>, spaces: nat, products: seq<seq<Name>>)
    requires ValidEquation(Equation(ps, one)) && t != [] && t[0] == NEWLINE
    ensures ParseProducts(Variable(ps[0][0]), ProductText(ps[0][1..]) + AfterFirst(ps, one, t), spaces, products)
            == Some((Equation(products + ps, one), t))
    decreases |ps|
  {
    var u := AfterFirst(ps, one, t);
    var after := SpacedText(ps[1..]) + (SignText(one) + t);
    assert u[1..] == after;
    ProductRead(ps[0], u, []);
    assert [] + ps[0] == ps[0];
    if |ps| == 1 {
      assert after == SignText(one) + t;
      SignRead(one, t);
      assert products + [ps[0]] == products + ps;
    } else {
      FirstProduct(ps[1..], one, t);
      FirstRead(ps[1], AfterFirst(ps[1..], one, t));
      ProductsRead(ps[1..], one, t, 1, products + [ps[0]]);
      assert products + [ps[0]] + ps[1..] == products + ps;
    }
  }

  // An equation is read back as it is.
  lemma EquationRead(e: Equation, t: seq<nat>)
    requires ValidEquation(e) && t != [] && t[0] == NEWLINE
    ensures var (p, s) := NextSymbol(EquationText(e) + t);
            p.Variable? && ParseProducts(p, s, 0, []) == Some((e, t))
  {
    var ps := e.products;
    Regroup(SpacedText(ps), SignText(e.one), t, []);
    FirstProduct(ps, e.one, t);
    FirstRead(ps[0], AfterFirst(ps, e.one, t));
    ProductsRead(ps, e.one, t, 0, []);
    assert [] + ps == ps;
  }

  // The equations of a file.
  function ParseFile(s: seq<nat>): Option<seq<Equation>> {
    ParseFrom(NextSymbol(s).0, NextSymbol(s).1)
  }

  // The equations from symbol p on.
  function ParseFrom(p: Symbol, t: seq<nat>): Option<seq<Equation>>
    decreases |t|, if p.Variable? then 1 else 0
  {
    if p.End? then Some([])
    else if !p.Variable? then None
    else match ParseProducts(p, t, 0, [])
      case None => None
      case Some((e, u)) => After([e], ParseFrom(NextSymbol(u).0, NextSymbol(u).1))
  }

  function After(es: seq<Equation>, more: Option<seq<Equation>>): Option<seq<Equation>> {
    if more.None? then None else Some(es + more.value)
  }

  function Equations(lines: seq<Option<Equation>>): seq<Equation> {
    if lines == [] then []
    else (if lines[0].Some? then [lines[0].value] else []) + Equations(lines[1..])
  }

  lemma SkipNewline(s: seq<nat>)
    ensures ParseFile([NEWLINE] + s) == ParseFile(s)
  {
    var t := [NEWLINE] + s;
    assert t[1..] == s;
    assert NextSymbol(t) == NextSymbol(s);
  }

  // Lines without an equation leave no trace.
  lemma {:induction false} FileRead(lines: seq<Option<Equation>>)
    requires forall k :: 0 <= k < |lines| && lines[k].Some? ==> ValidEquation(lines[k].value)
    ensures ParseFile(FileText(lines)) == Some(Equations(lines))
    decreases |lines|
  {
    if lines != [] {
      var after := FileText(lines[1..]);
      FileRead(lines[1..]);
      SkipNewline(after);
      if lines[0].Some? {
        Regroup(EquationText(lines[0].value), [NEWLINE], after, []);
        EquationRead(lines[0].value, [NEWLINE] + after);
      } else {
        assert FileText(lines) == [NEWLINE] + after;
        assert [] + Equations(lines[1..]) == Equations(lines[1..]);
      }
    }
  }
}
