// Scanning an XOR file (src/formats/xorbdd.cc): symbols and the products of an
// equation, one character at a time.

module XorScanner {
  import opened Basics
  import opened Decimals
  import opened XorText

  class Scanner {
    const input: seq<nat>
    var pos: nat

    ghost predicate Valid()
      reads this
    {
      pos <= |input|
    }

    ghost function Rest(): seq<nat>
      requires Valid()
      reads this
    {
      input[pos..]
    }

    constructor (input: seq<nat>)
      ensures Valid() && this.input == input && Rest() == input
    {
      this.input, pos := input, 0;
    }

    // What is left when the current character is taken.
    lemma Taken()
      requires Valid() && pos < |input|
      ensures Rest() != [] && Rest()[0] == input[pos] && Rest()[1..] == input[pos + 1..]
    {
    }

    method SkipLine()
      requires Valid()
      modifies this
      ensures pos >= old(pos)
      ensures Valid() && Rest() == AfterLine(old(Rest()))
    {
      ghost var start := Rest();
      while pos < |input| && input[pos] != NEWLINE
        invariant pos >= old(pos) && Valid() && AfterLine(start) == AfterLine(Rest())
      {
        Taken();
        pos := pos + 1;
      }
      if pos < |input| {
        Taken();
        pos := pos + 1;
      }
    }

    // The digits from here on.
    method GetDigits() returns (integers: Name)
      requires Valid()
      modifies this
      ensures pos >= old(pos)
      ensures Valid() && Digits(old(Rest())) == (integers, Rest())
    {
      ghost var start := Rest();
      integers := [];
      assert integers + Digits(start).0 == Digits(start).0;
      while pos < |input| && IsDigit(input[pos])
        invariant pos >= old(pos) && Valid() && Digits(start) == (integers + Digits(Rest()).0, Digits(Rest()).1)
      {
        Taken();
        ghost var more := Digits(input[pos + 1..]).0;
        assert integers + ([input[pos]] + more) == integers + [input[pos]] + more;
        integers := integers + [input[pos]];
        pos := pos + 1;
      }
      assert integers + [] == integers;
    }

    method SkipTrailing() returns (ok: bool)
      requires Valid()
      modifies this
      ensures pos >= old(pos)
      ensures Valid() && ok == Trailing(old(Rest())).Some?
      ensures ok ==> Trailing(old(Rest())) == Some(Rest())
    {
      ghost var start := Rest();
      while pos < |input| && input[pos] == SPACE
        invariant pos >= old(pos) && Valid() && Trailing(start) == Trailing(Rest())
      {
        Taken();
        pos := pos + 1;
      }
      ok := pos == |input| || input[pos] == NEWLINE || input[pos] == SEMICOLON;
    }

    method GetSign() returns (p: Symbol)
      requires Valid() && pos < |input|
      modifies this
      ensures pos >= old(pos)
      ensures Valid() && p == SignSymbol(old(Rest())).0 && (!p.Bad? ==> Rest() == SignSymbol(old(Rest())).1)
    {
      p := Bad;
      if pos + 2 < |input| && input[pos + 1] == SPACE && (input[pos + 2] == 48 || input[pos + 2] == 49) {
        var one := input[pos + 2] == 49;
        assert Rest()[3..] == input[pos + 3..];
        pos := pos + 3;
        var ok := SkipTrailing();
        if ok {
          p := Sign(one);
        }
      }
    }

    method GetVariable() returns (p: Symbol)
      requires Valid() && pos < |input|
      modifies this
      ensures pos >= old(pos)
      ensures Valid() && p == VariableSymbol(old(Rest())).0 && (!p.Bad? ==> Rest() == VariableSymbol(old(Rest())).1)
    {
      p := Bad;
      Taken();
      if pos + 1 < |input| && IsDigit(input[pos + 1]) && input[pos + 1] != 48 {
        pos := pos + 1;
        var integers := GetDigits();
        if pos < |input| {
          p := Variable(integers);
        }
      }
    }

    // getNextSymbol.
    method GetNextSymbol() returns (p: Symbol)
      requires Valid()
      modifies this
      ensures pos >= old(pos)
      ensures Valid() && p == NextSymbol(old(Rest())).0 && (!p.Bad? ==> Rest() == NextSymbol(old(Rest())).1)
    {
      ghost var start := Rest();
      while pos < |input| && (input[pos] == SEMICOLON || input[pos] == NEWLINE)
        invariant pos >= old(pos) && Valid() && NextSymbol(start) == NextSymbol(Rest())
        decreases |Rest()|
      {
        Taken();
        if input[pos] == SEMICOLON {
          SkipLine();
        } else {
          pos := pos + 1;
        }
      }
      if pos == |input| {
        return End;
      }
      Taken();
      if input[pos] == SPACE {
        pos := pos + 1;
        p := Space;
      } else if input[pos] == EQUALS {
        p := GetSign();
      } else if input[pos] == LETTER_X {
        p := GetVariable();
      } else {
        p := Bad;
      }
    }

    // The inner loop of xorloop: the variables of one product.
    method ReadProduct(first: Symbol) returns (product: seq<Name>, p: Symbol)
      requires Valid()
      modifies this
      ensures pos >= old(pos)
      ensures Valid() && !p.Variable?
      ensures ParseProduct(first, old(Rest()), []).1 == p
      ensures !p.Bad? ==> ParseProduct(first, old(Rest()), []) == (product, p, Rest())
    {
      ghost var start := Rest();
      p := first;
      product := [];
      while p.Variable?
        invariant pos >= old(pos) && Valid()
        invariant p.Bad? ==> ParseProduct(first, start, []).1 == p
        invariant !p.Bad? ==> ParseProduct(first, start, []) == ParseProduct(p, Rest(), product)
        decreases |Rest()|, if p.Variable? then 1 else 0
      {
        product := product + [p.name];
        p := GetNextSymbol();
      }
    }

    // The loop over the products, up to the sign.
    method ReadEquation(first: Symbol) returns (e: Option<Equation>)
      requires Valid() && first.Variable?
      modifies this
      ensures pos >= old(pos)
      ensures Valid()
      ensures match ParseProducts(first, old(Rest()), 0, [])
              case None => e == None
              case Some((q, t)) => e == Some(q) && Rest() == t
    {
      ghost var start := Rest();
      var p := first;
      var products: seq<seq<Name>> := [];
      var spaces := 0;
      while !p.Sign?
        invariant pos >= old(pos) && Valid() && !p.End?
        invariant p.Bad? ==> ParseProducts(first, start, 0, []) == None
        invariant !p.Bad? ==> ParseProducts(first, start, 0, []) == ParseProducts(p, Rest(), spaces, products)
        decreases |Rest()|, if p.Bad? then 0 else 1
      {
        var product;
        spaces := if p.Variable? then 1 else spaces + 1;
        product, p := ReadProduct(p);
        if !p.Space? || spaces > 1 {
          return None;
        }
        products := products + [product];
        p := GetNextSymbol();
        if p.End? {
          return None;
        }
      }
      return Some(Equation(products, p.one));
    }
  }
}
