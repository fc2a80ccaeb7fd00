// Printing functions as an XOR file (src/formats/xorbdd.cc).

module XorWriter {
  import opened Arithmetic
  import opened Basics
  import opened Bdd
  import opened Decimals
  import opened XorDiagram
  import opened XorFlat
  import opened XorText
  import opened XorNames

  // numbers[v] is the number printed for variable v.
  ghost predicate Numbered(numbers: seq<nat>, s: set<nat>) {
    forall v :: v in s ==> 1 <= v < |numbers| && numbers[v] >= 1
  }

  predicate Printable(p: Product, numbers: seq<nat>) {
    forall k :: 0 <= k < |p| ==> 1 <= p[k] < |numbers| && numbers[p[k]] >= 1
  }

  function ProductNames(p: Product, numbers: seq<nat>): seq<Name>
    requires Printable(p, numbers)
  {
    seq(|p|, (k: nat) requires k < |p| && 1 <= p[k] < |numbers| => Decimal(numbers[p[k]]))
  }

  predicate AllPrintable(ps: seq<Product>, numbers: seq<nat>) {
    forall k :: 0 <= k < |ps| ==> ps[k] != [] && Printable(ps[k], numbers)
  }

  function ListNames(ps: seq<Product>, numbers: seq<nat>): seq<seq<Name>>
    requires AllPrintable(ps, numbers)
  {
    seq(|ps|, (k: nat) requires k < |ps| && Printable(ps[k], numbers) => ProductNames(ps[k], numbers))
  }

  // The list without the constant.
  function Variables(ps: seq<Product>): seq<Product>
    requires ps != []
  {
    if ps[|ps| - 1] == [-1] then ps[..|ps| - 1] else ps
  }

  function EquationOf(ps: seq<Product>, numbers: seq<nat>): Equation
    requires ps != [] && AllPrintable(Variables(ps), numbers)
  {
    Equation(ListNames(Variables(ps), numbers), ps[|ps| - 1] == [-1])
  }

  lemma ShapedPrintable(ps: seq<Product>, s: set<nat>, numbers: seq<nat>)
    requires ps != [] && Shaped(ps, s) && Numbered(numbers, s)
    ensures AllPrintable(Variables(ps), numbers)
    ensures forall k :: 0 <= k < |ps| - 1 ==> ps[k] != [-1] && ps[k] != [] && Printable(ps[k], numbers)
    ensures ps[|ps| - 1] == [-1] || (ps[|ps| - 1] != [] && Printable(ps[|ps| - 1], numbers))
  {
    forall k | 0 <= k < |ps|
      ensures ps[k] != [] && ((k == |ps| - 1 && ps[k] == [-1]) || (ps[k] != [-1] && Printable(ps[k], numbers)))
    {
      assert ShapedAt(ps, s, k);
      if Monomial(ps[k], s) {
        assert ps[k][0] >= 1;
      }
    }
  }

  // ----- text -----

  method PrintProduct(p: Product, numbers: seq<nat>) returns (out: seq<nat>)
    requires Printable(p, numbers)
    ensures out == ProductText(ProductNames(p, numbers))
  {
    out := [];
    var x := 0;
    assert ProductNames(p[..0], numbers) == [];
    while x < |p|
      invariant 0 <= x <= |p| && out == ProductText(ProductNames(p[..x], numbers))
    {
      assert ProductNames(p[..x + 1], numbers) == ProductNames(p[..x], numbers) + [Decimal(numbers[p[x]])];
      ProductTextMore(ProductNames(p[..x], numbers), Decimal(numbers[p[x]]));
      out := out + [LETTER_X] + Decimal(numbers[p[x]]);
      x := x + 1;
    }
    assert p[..x] == p;
  }

  // print_xor_of_ands_file_ver2: the products, a space between two; the constant
  // prints nothing.
  method PrintXorOfAnds(top: seq<Product>, numbers: seq<nat>) returns (out: seq<nat>, ret: nat)
    requires top != [] && top[0] != [-1] && AllPrintable(Variables(top), numbers)
    ensures ret == if top[|top| - 1] == [-1] then 1 else 0
    ensures (if ret == 1 then out else out + [SPACE]) == SpacedText(ListNames(Variables(top), numbers))
  {
    ghost var ps := Variables(top);
    ret := 0;
    assert ps[0] == top[0];
    out := PrintProduct(top[0], numbers);
    FirstProduct(ps, numbers);
    var tmp := 1;
    while tmp < |top|
      invariant 1 <= tmp <= |top| && (ret == 0 || ret == 1) && (ret == 0 ==> tmp <= |ps|)
      invariant ret == 1 <==> tmp > |ps|
      invariant (if ret == 1 then out else out + [SPACE]) == SpacedText(ListNames(ps[..if ret == 1 then |ps| else tmp], numbers))
    {
      out := out + [SPACE];
      if top[tmp][|top[tmp]| - 1] == -1 {
        ret := 1;
      } else {
        var text := PrintProduct(top[tmp], numbers);
        NextProduct(ps, tmp, numbers, out[..|out| - 1], text);
        out := out + text;
      }
      tmp := tmp + 1;
    }
    assert ps[..|ps|] == ps;
  }

  lemma FirstProduct(ps: seq<Product>, numbers: seq<nat>)
    requires ps != [] && AllPrintable(ps, numbers)
    ensures ProductText(ProductNames(ps[0], numbers)) + [SPACE] == SpacedText(ListNames(ps[..1], numbers))
  {
    var names := ListNames(ps[..1], numbers);
    assert names[0] == ProductNames(ps[0], numbers) && names[1..] == [];
  }

  lemma NextProduct(ps: seq<Product>, k: nat, numbers: seq<nat>, out: seq<nat>, text: seq<nat>)
    requires AllPrintable(ps, numbers) && k < |ps| && out + [SPACE] == SpacedText(ListNames(ps[..k], numbers))
    requires text == ProductText(ProductNames(ps[k], numbers))
    ensures out + [SPACE] + text + [SPACE] == SpacedText(ListNames(ps[..k + 1], numbers))
  {
    assert ListNames(ps[..k + 1], numbers) == ListNames(ps[..k], numbers) + [ProductNames(ps[k], numbers)];
    SpacedTextMore(ListNames(ps[..k], numbers), ProductNames(ps[k], numbers));
  }

  // What is printed for one function: nothing for false.
  ghost function LineOf(f: Bdd, numbers: seq<nat>): Option<Equation>
    requires Robdd(f) && Numbered(numbers, Support(f))
  {
    if f.Node? then FlatPrintable(f, numbers); Some(EquationOf(Inverted(Flat(ToXdd(f))), numbers)) else None
  }

  lemma FlatPrintable(f: Bdd, numbers: seq<nat>)
    requires Robdd(f) && f.Node? && Numbered(numbers, Support(f))
    ensures var ps := Flat(ToXdd(f));
            ps != [] && Shaped(ps, Support(f)) && ps[0] != [-1]
            && Inverted(ps) != [] && Inverted(ps)[0] != [-1] && Shaped(Inverted(ps), Support(f))
            && AllPrintable(Variables(Inverted(ps)), numbers)
  {
    ToXddForm(f);
    ToXddInner(f);
    FlatShaped(ToXdd(f));
    LargerSet(Flat(ToXdd(f)), Support(ToXdd(f)), Support(f));
    InvertedShaped(Flat(ToXdd(f)), Support(f));
    ShapedPrintable(Inverted(Flat(ToXdd(f))), Support(f), numbers);
  }

  lemma LargerSet(ps: seq<Product>, s: set<nat>, t: set<nat>)
    requires Shaped(ps, s) && s <= t
    ensures Shaped(ps, t)
  {
    forall i | 0 <= i < |ps| ensures ShapedAt(ps, t, i) {
      assert ShapedAt(ps, s, i);
    }
  }

  // The products and the value that makes the function true.
  method PrintEquation(top: seq<Product>, numbers: seq<nat>) returns (out: seq<nat>)
    requires top != [] && top[0] != [-1] && AllPrintable(Variables(top), numbers)
    ensures out == EquationText(EquationOf(top, numbers))
  {
    var ret;
    out, ret := PrintXorOfAnds(top, numbers);
    if ret == 0 {
      assert out + [SPACE, EQUALS, SPACE, 48] == out + [SPACE] + SignText(false);
      out := out + [SPACE, EQUALS, SPACE, 48];
    } else {
      out := out + [EQUALS, SPACE, 49];
    }
  }

  // print_flat_xor_file.
  method PrintFlatXorFile(f: Bdd, xdd: Bdd, size: nat, numbers: seq<nat>) returns (out: seq<nat>)
    requires Robdd(f) && !f.True? && xdd == ToXdd(f) && |Support(f)| <= size && Numbered(numbers, Support(f))
    ensures LineText(LineOf(f, numbers)) == out + [NEWLINE]
  {
    ToXddForm(f);
    SubsetSize(Support(xdd), Support(f));
    var top := GetFlatXdd(xdd, size);
    FlatShaped(xdd);
    if top == [] {
      OnlyFalseIsEmpty(f);
      return [];
    }
    assert f.Node?;
    FlatPrintable(f, numbers);
    NoEmptyProduct(top, Support(f));
    top := InvertXorOfAnds(top);
    out := PrintEquation(top, numbers);
  }

  lemma NoEmptyProduct(ps: seq<Product>, s: set<nat>)
    requires Shaped(ps, s)
    ensures forall i :: 0 <= i < |ps| ==> ps[i] != []
  {
    forall i | 0 <= i < |ps| ensures ps[i] != [] {
      assert ShapedAt(ps, s, i);
    }
  }

  lemma OnlyFalseIsEmpty(f: Bdd)
    requires Robdd(f) && Flat(ToXdd(f)) == [] && !f.True?
    ensures f == False
  {
    ToXddForm(f);
    FlatShaped(ToXdd(f));
    if f.Node? {
      ToXddInner(f);
    }
  }

  ghost predicate Writable(fs: seq<Bdd>, numbers: seq<nat>) {
    forall k :: 0 <= k < |fs| ==> Robdd(fs[k]) && Numbered(numbers, Support(fs[k]))
  }

  // True functions are passed over.
  ghost function Lines(fs: seq<Bdd>, numbers: seq<nat>): seq<Option<Equation>>
    requires Writable(fs, numbers)
  {
    if fs == [] then []
    else Lines(fs[..|fs| - 1], numbers) + if fs[|fs| - 1].True? then [] else [LineOf(fs[|fs| - 1], numbers)]
  }

  lemma LinesMore(fs: seq<Bdd>, k: nat, numbers: seq<nat>)
    requires Writable(fs, numbers) && k < |fs|
    ensures Lines(fs[..k + 1], numbers) == if fs[k].True? then Lines(fs[..k], numbers) else Lines(fs[..k], numbers) + [LineOf(fs[k], numbers)]
  {
    assert fs[..k + 1][..k] == fs[..k];
    assert Lines(fs[..k], numbers) + [] == Lines(fs[..k], numbers);
  }

  // printXORFormat, after the header.
  method PrintXORFormat(fs: seq<Bdd>, lengths: seq<nat>, numbers: seq<nat>) returns (out: seq<nat>)
    requires Writable(fs, numbers) && |lengths| == |fs|
    requires forall k :: 0 <= k < |fs| ==> lengths[k] == |Support(fs[k])|
    ensures out == FileText(Lines(fs, numbers))
  {
    out := [];
    var x := 0;
    while x < |fs|
      invariant 0 <= x <= |fs| && out == FileText(Lines(fs[..x], numbers))
    {
      LinesMore(fs, x, numbers);
      if !fs[x].True? {
        var xdd := ToXdd(fs[x]);
        var line := PrintFlatXorFile(fs[x], xdd, lengths[x], numbers);
        FileTextMore(Lines(fs[..x], numbers), LineOf(fs[x], numbers));
        out := out + (line + [NEWLINE]);
      }
      x := x + 1;
    }
    assert fs[..x] == fs;
  }

  // ----- what an equation says -----

  // The variables whose printed names are true.
  ghost function Meant(numbers: seq<nat>, w: World): Assignment {
    iset v: nat | MeantAt(numbers, v, w)
  }

  ghost predicate MeantAt(numbers: seq<nat>, v: nat, w: World) {
    1 <= v < |numbers| && Decimal(numbers[v]) in w
  }

  lemma ProductSame(p: Product, numbers: seq<nat>, w: World)
    requires Printable(p, numbers)
    ensures NamesTrue(ProductNames(p, numbers), w) <==> ProductTrue(p, Meant(numbers, w))
  {
    var names, a := ProductNames(p, numbers), Meant(numbers, w);
    forall k | 0 <= k < |p| ensures names[k] in w <==> p[k] in a {
      assert MeantAt(numbers, p[k], w) <==> names[k] in w;
    }
    if ProductTrue(p, a) {
      forall k | 0 <= k < |names| ensures names[k] in w {
        assert p[k] in a;
      }
    }
    if NamesTrue(names, w) {
      forall k | 0 <= k < |p| && p[k] != -1 ensures p[k] in a {
        assert names[k] in w;
      }
    }
  }

  lemma {:induction false} SumSame(ps: seq<Product>, numbers: seq<nat>, w: World)
    requires AllPrintable(ps, numbers)
    ensures Odd(ListNames(ps, numbers), w) == Sum(ps, Meant(numbers, w))
  {
    if ps != [] {
      var front, names := ps[..|ps| - 1], ListNames(ps, numbers);
      assert names[..|names| - 1] == ListNames(front, numbers);
      SumSame(front, numbers, w);
      ProductSame(ps[|ps| - 1], numbers, w);
    }
  }

  lemma EquationValue(ps: seq<Product>, numbers: seq<nat>, w: World)
    requires ps != [] && AllPrintable(Variables(ps), numbers)
    ensures Satisfied(EquationOf(ps, numbers), w) <==> !Sum(ps, Meant(numbers, w))
  {
    SumSame(Variables(ps), numbers, w);
    if ps[|ps| - 1] == [-1] {
      assert ProductTrue([-1], Meant(numbers, w));
    }
  }

  // The equation printed holds exactly where the function does.
  lemma LineValue(f: Bdd, numbers: seq<nat>, w: World)
    requires Robdd(f) && f.Node? && Numbered(numbers, Support(f))
    ensures Satisfied(LineOf(f, numbers).value, w) <==> Eval(f, Meant(numbers, w))
  {
    var ps, a := Flat(ToXdd(f)), Meant(numbers, w);
    FlatPrintable(f, numbers);
    EquationValue(Inverted(ps), numbers, w);
    InvertedValue(ps, Support(f), a);
    FlatValue(ToXdd(f), a);
    ToXddEval(f, a);
  }

  lemma LineValid(f: Bdd, numbers: seq<nat>)
    requires Robdd(f) && f.Node? && Numbered(numbers, Support(f))
    ensures ValidEquation(LineOf(f, numbers).value)
  {
    FlatPrintable(f, numbers);
    var ps := Variables(Inverted(Flat(ToXdd(f))));
    var e := LineOf(f, numbers).value;
    forall k | 0 <= k < |e.products| ensures ValidProduct(e.products[k]) {
      forall j | 0 <= j < |ps[k]| ensures ValidName(e.products[k][j]) {
        DecimalDigits(numbers[ps[k][j]]);
      }
    }
  }

  // Every name printed is that of a variable of the function.
  lemma NameOfVariable(f: Bdd, numbers: seq<nat>, k: nat, n: Name) returns (v: nat)
    requires Robdd(f) && f.Node? && Numbered(numbers, Support(f))
    requires k < |LineOf(f, numbers).value.products| && n in LineOf(f, numbers).value.products[k]
    ensures v in Support(f) && n == Decimal(numbers[v])
  {
    FlatPrintable(f, numbers);
    var ps := Inverted(Flat(ToXdd(f)));
    var p := Variables(ps)[k];
    assert p == ps[k] && ShapedAt(ps, Support(f), k);
    assert LineOf(f, numbers).value.products[k] == ProductNames(p, numbers);
    var j :| 0 <= j < |p| && ProductNames(p, numbers)[j] == n;
    v := p[j];
  }
}
