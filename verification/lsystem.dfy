/** The L-system tree: string rewriting from the axiom `F`, the bracket-depth scan that
    scales the colours, and the turtle whose `[` and `]` save and restore its state. */
module LSystems {
  import opened Pixels

  const Axiom: string := "F"

  /** A bracketed branch: the turtle state is saved before the body and restored after. */
  function Branch(body: string): string {
    "[" + body + "]"
  }

  /** The one production, `F -> FF+[+F-F-F]-[-F+F+F]`. */
  const Production: string := "FF+[+F-F-F]-[-F+F+F]"

  /** What one symbol becomes in a generation under the production `prod` for `F`:
      `F` expands, everything else is copied. */
  function Image(c: char, prod: string): (r: string)
    ensures c == 'F' ==> r == prod
    ensures c != 'F' ==> r == [c]
  {
    if c == 'F' then prod else [c]
  }

  /** One generation: every symbol replaced by its image, in order. */
  function Rewrite(s: string, prod: string): string
    decreases |s|
  {
    if |s| == 0 then [] else Image(s[0], prod) + Rewrite(s[1..], prod)
  }

  /** The axiom rewritten `gens` times under the production `prod`. */
  function GenerateWith(prod: string, gens: nat): (r: string)
    ensures gens == 0 ==> r == Axiom
    decreases gens
  {
    if gens == 0 then Axiom else Rewrite(GenerateWith(prod, gens - 1), prod)
  }

  /** `generate_string(gens)`: the axiom rewritten `gens` times under the tree's production. */
  function Generate(gens: nat): string {
    GenerateWith(Production, gens)
  }

  /** Rewriting works symbol by symbol: it distributes over concatenation. */
  lemma {:induction false} RewriteAppend(a: string, b: string, prod: string)
    ensures Rewrite(a + b, prod) == Rewrite(a, prod) + Rewrite(b, prod)
    decreases |a|
  {
    if |a| == 0 {
      assert a + b == b;
    } else {
      assert (a + b)[1..] == a[1..] + b;
      RewriteAppend(a[1..], b, prod);
    }
  }

  /** Symbols other than `F` are copied unchanged: a string without `F` is a fixed point. */
  lemma {:induction false} RewriteFixesStringsWithoutF(s: string, prod: string)
    requires 'F' !in s
    ensures Rewrite(s, prod) == s
    decreases |s|
  {
    if |s| > 0 {
      assert 'F' !in s[1..];
      RewriteFixesStringsWithoutF(s[1..], prod);
      assert s == [s[0]] + s[1..];
    }
  }

  /** The number of `F` symbols, i.e. of segments the turtle draws. */
  function CountF(s: string): nat
    decreases |s|
  {
    if |s| == 0 then 0 else (if s[0] == 'F' then 1 else 0) + CountF(s[1..])
  }

  lemma {:induction false} CountFAppend(a: string, b: string)
    ensures CountF(a + b) == CountF(a) + CountF(b)
    decreases |a|
  {
    if |a| == 0 {
      assert a + b == b;
    } else {
      assert (a + b)[1..] == a[1..] + b;
      CountFAppend(a[1..], b);
    }
  }

  /** `CountF` is the multiplicity of `F`. */
  lemma {:induction false} CountFIsMultiplicity(s: string)
    ensures CountF(s) == multiset(s)['F']
    decreases |s|
  {
    if |s| > 0 {
      assert s == [s[0]] + s[1..];
      CountFIsMultiplicity(s[1..]);
    }
  }

  function Pow8(n: nat): nat {
    if n == 0 then 1 else 8 * Pow8(n - 1)
  }

  /** The production draws eight segments. */
  lemma ProductionHasEightF()
    ensures CountF(Production) == 8
  {
    CountFIsMultiplicity(Production);
  }

  /** With an eight-segment production, each generation multiplies the number of `F`s by
      eight. */
  lemma {:induction false} RewriteMultipliesF(s: string, prod: string)
    requires CountF(prod) == 8
    ensures CountF(Rewrite(s, prod)) == 8 * CountF(s)
    decreases |s|
  {
    if |s| > 0 {
      RewriteMultipliesF(s[1..], prod);
      CountFAppend(Image(s[0], prod), Rewrite(s[1..], prod));
      if s[0] != 'F' {
        assert [s[0]][1..] == [];
      }
    }
  }

  lemma {:induction false} GenerateWithCountsF(prod: string, n: nat)
    requires CountF(prod) == 8
    ensures CountF(GenerateWith(prod, n)) == Pow8(n)
  {
    if n == 0 {
      assert Axiom[1..] == [];
    } else {
      GenerateWithCountsF(prod, n - 1);
      RewriteMultipliesF(GenerateWith(prod, n - 1), prod);
    }
  }

  /** Generation `n` draws `8^n` segments. */
  lemma GenerateCountsF(n: nat)
    ensures CountF(Generate(n)) == Pow8(n)
  {
    ProductionHasEightF();
    GenerateWithCountsF(Production, n);
  }

  /** What one symbol does to the bracket balance. */
  function Delta(c: char): int {
    if c == '[' then 1 else if c == ']' then -1 else 0
  }

  /** The bracket balance: opening minus closing brackets. */
  function Net(s: string): int
    decreases |s|
  {
    if |s| == 0 then 0 else Delta(s[0]) + Net(s[1..])
  }

  /** The lowest balance over all prefixes (the empty prefix included, so never positive). */
  function Low(s: string): int
    decreases |s|
  {
    if |s| == 0 then 0 else Min(0, Delta(s[0]) + Low(s[1..]))
  }

  /** The whole string is one of its prefixes, so its balance is at least the minimum. */
  lemma {:induction false} LowAtMostNet(s: string)
    ensures Low(s) <= 0 && Low(s) <= Net(s)
    decreases |s|
  {
    if |s| > 0 {
      LowAtMostNet(s[1..]);
    }
  }

  /** `Low` is what it claims, from any starting balance `d`: the balance never drops below
      zero exactly when no prefix takes it there. */
  lemma {:induction false} LowIsPrefixMinimumFrom(s: string, d: int)
    ensures d + Low(s) >= 0 <==> forall k :: 0 <= k <= |s| ==> d + Net(s[..k]) >= 0
    decreases |s|
  {
    assert Net(s[..0]) == 0 by { assert s[..0] == []; }
    if |s| > 0 {
      var t := s[1..];
      LowIsPrefixMinimumFrom(t, d + Delta(s[0]));
      forall k | 0 <= k <= |t|
        ensures Net(s[..k + 1]) == Delta(s[0]) + Net(t[..k])
      {
        assert s[..k + 1][1..] == t[..k];
      }
      if d + Low(s) >= 0 {
        forall k | 0 <= k <= |s|
          ensures d + Net(s[..k]) >= 0
        {
          if k > 0 {
            assert Net(s[..k]) == Delta(s[0]) + Net(t[..k - 1]);
          }
        }
      }
    }
  }

  /** Starting from zero: `Low(s) >= 0` exactly when no prefix closes more brackets than it
      opens. */
  lemma LowIsPrefixMinimum(s: string)
    ensures Low(s) >= 0 <==> forall k :: 0 <= k <= |s| ==> Net(s[..k]) >= 0
  {
    LowIsPrefixMinimumFrom(s, 0);
  }

  lemma {:induction false} NetAppend(a: string, b: string)
    ensures Net(a + b) == Net(a) + Net(b)
    decreases |a|
  {
    if |a| == 0 {
      assert a + b == b;
    } else {
      assert (a + b)[1..] == a[1..] + b;
      NetAppend(a[1..], b);
    }
  }

  /** How the balance and its minimum compose under concatenation. */
  lemma {:induction false} LowAppend(a: string, b: string)
    ensures Net(a + b) == Net(a) + Net(b)
    ensures Low(a + b) == Min(Low(a), Net(a) + Low(b))
    decreases |a|
  {
    NetAppend(a, b);
    if |a| == 0 {
      assert a + b == b;
    } else {
      assert (a + b)[1..] == a[1..] + b;
      LowAppend(a[1..], b);
    }
  }

  lemma {:induction false} LowWithoutBrackets(s: string)
    requires '[' !in s && ']' !in s
    ensures Net(s) == 0 && Low(s) == 0
    decreases |s|
  {
    if |s| > 0 {
      assert '[' !in s[1..] && ']' !in s[1..];
      LowWithoutBrackets(s[1..]);
    }
  }

  /** A branch around a bracket-free body is balanced and never dips below zero. */
  lemma BranchIsBalanced(body: string)
    requires '[' !in body && ']' !in body
    ensures Net(Branch(body)) == 0 && Low(Branch(body)) == 0
  {
    var open, close := "[", "]";
    assert Net(open) == 1 && Low(open) == 0 && Net(close) == -1 && Low(close) == -1 by {
      assert open[1..] == [] && close[1..] == [];
    }
    LowWithoutBrackets(body);
    LowAppend(open, body);
    LowAppend(open + body, close);
  }

  /** Bracket-free text around two balanced branches is balanced and never dips below zero. */
  lemma TwoBranchesAreBalanced(lead: string, left: string, mid: string, right: string)
    requires '[' !in lead && ']' !in lead
    requires '[' !in left && ']' !in left
    requires '[' !in mid && ']' !in mid
    requires '[' !in right && ']' !in right
    ensures var s := lead + Branch(left) + mid + Branch(right); Net(s) == 0 && Low(s) == 0
  {
    LowWithoutBrackets(lead);
    LowWithoutBrackets(mid);
    BranchIsBalanced(left);
    BranchIsBalanced(right);
    LowAppend(lead, Branch(left));
    LowAppend(lead + Branch(left), mid);
    LowAppend(lead + Branch(left) + mid, Branch(right));
  }

  /** The production is balanced and never dips below zero, like a lone `F`. */
  lemma ProductionIsBalanced()
    ensures Net(Production) == 0 && Low(Production) == 0
  {
    TwoBranchesAreBalanced("FF+", "+F-F-F", "-", "-F+F+F");
    assert Production == "FF+" + Branch("+F-F-F") + "-" + Branch("-F+F+F");
  }

  /** Under a balanced production, a symbol and its image have the same balance and prefix
      minimum. */
  lemma ImageKeepsBrackets(c: char, prod: string)
    requires Net(prod) == 0 && Low(prod) == 0
    ensures Net(Image(c, prod)) == Net([c]) && Low(Image(c, prod)) == Low([c])
  {
    assert [c][1..] == [];
  }

  /** Concatenation only looks at each part's balance and prefix minimum. */
  lemma AppendKeepsBrackets(a: string, b: string, a2: string, b2: string)
    requires Net(a) == Net(a2) && Low(a) == Low(a2) && Net(b) == Net(b2) && Low(b) == Low(b2)
    ensures Net(a + b) == Net(a2 + b2) && Low(a + b) == Low(a2 + b2)
  {
    LowAppend(a, b);
    LowAppend(a2, b2);
  }

  /** Rewriting with a balanced production keeps both the balance and its prefix minimum. */
  lemma {:induction false} RewriteKeepsBrackets(s: string, prod: string)
    requires Net(prod) == 0 && Low(prod) == 0
    ensures Net(Rewrite(s, prod)) == Net(s) && Low(Rewrite(s, prod)) == Low(s)
    decreases |s|
  {
    if |s| > 0 {
      var c, t := s[0], s[1..];
      RewriteKeepsBrackets(t, prod);
      assert s == [c] + t;
      ImageKeepsBrackets(c, prod);
      AppendKeepsBrackets(Image(c, prod), Rewrite(t, prod), [c], t);
    }
  }

  lemma {:induction false} GenerateWithIsBalanced(prod: string, n: nat)
    requires Net(prod) == 0 && Low(prod) == 0
    ensures Net(GenerateWith(prod, n)) == 0 && Low(GenerateWith(prod, n)) == 0
  {
    if n == 0 {
      assert Axiom[1..] == [];
    } else {
      GenerateWithIsBalanced(prod, n - 1);
      RewriteKeepsBrackets(GenerateWith(prod, n - 1), prod);
    }
  }

  /** Every generated string is balanced and no prefix of it closes more brackets than it
      opens. */
  lemma GenerateIsBalanced(n: nat)
    ensures Net(Generate(n)) == 0 && Low(Generate(n)) == 0
  {
    ProductionIsBalanced();
    GenerateWithIsBalanced(Production, n);
  }

  /** `(generations as u32).clamp(3, 6)`. */
  function GenerationsUsed(generations: real): (n: nat)
    ensures 3 <= n <= 6
    ensures 3.0 <= generations < 7.0 ==> n == generations.Floor
    ensures generations < 4.0 ==> n == 3
    ensures generations >= 6.0 ==> n == 6
  {
    Max(3, Min(CastU32(generations), 6))
  }

  /** One step of the first pass: `[` deepens, `]` is a saturating decrement. */
  function ScanStep(d: nat, c: char): nat {
    if c == '[' then d + 1 else if c == ']' then (if d > 0 then d - 1 else 0) else d
  }

  /** The depth counter of the first pass after reading `s`. */
  function ScanDepth(s: string): nat
    decreases |s|
  {
    if |s| == 0 then 0 else ScanStep(ScanDepth(s[..|s| - 1]), s[|s| - 1])
  }

  /** The first pass of `update`: the deepest value the counter reaches, raised to 1 when it
      never leaves 0. */
  method MaxDepth(s: string) returns (m: nat)
    ensures m >= 1
    ensures forall k :: 0 <= k <= |s| ==> ScanDepth(s[..k]) <= m
    ensures m == 1 || exists k :: 0 <= k <= |s| && ScanDepth(s[..k]) == m
  {
    var d: nat := 0;
    m := 0;
    var i := 0;
    while i < |s|
      invariant 0 <= i <= |s|
      invariant d == ScanDepth(s[..i])
      invariant forall k :: 0 <= k <= i ==> ScanDepth(s[..k]) <= m
      invariant m == 0 || exists k :: 0 <= k <= i && ScanDepth(s[..k]) == m
    {
      assert s[..i + 1][..i] == s[..i];
      d := ScanStep(d, s[i]);
      if d > m {
        m := d;
      }
      i := i + 1;
    }
    if m == 0 {
      m := 1;
    }
  }

  /** On a string whose prefixes never close more than they open, the saturation never
      fires: the counter is the true nesting depth. */
  lemma {:induction false} ScanIsNestingWhenBalanced(s: string)
    requires Low(s) >= 0
    ensures ScanDepth(s) == Net(s)
    decreases |s|
  {
    if |s| > 0 {
      var p, c := s[..|s| - 1], s[|s| - 1];
      assert s == p + [c];
      LowAppend(p, [c]);
      assert [c][1..] == [];
      ScanIsNestingWhenBalanced(p);
    }
  }

  /** The turtle: position, heading and branch depth. */
  datatype Turtle = Turtle(x: real, y: real, angle: real, depth: nat)

  /** The turtle together with its stack of saved states. */
  datatype Pen = Pen(turtle: Turtle, stack: seq<Turtle>)

  /** One symbol of the second pass. `forward` is where an `F` segment ends, which depends on
      the wind, the depth and trigonometry. */
  function TurtleStep(pen: Pen, c: char, turn: real, forward: Turtle -> (real, real)): (r: Pen)
    ensures c == '[' ==> r == Pen(pen.turtle.(depth := pen.turtle.depth + 1), pen.stack + [pen.turtle])
    ensures c == ']' && |pen.stack| == 0 ==> r == pen
    ensures c == ']' && |pen.stack| > 0 ==> r == Pen(pen.stack[|pen.stack| - 1], pen.stack[..|pen.stack| - 1])
    ensures c == 'F' ==> r.stack == pen.stack && r.turtle.angle == pen.turtle.angle && r.turtle.depth == pen.turtle.depth
    ensures c != '[' && c != ']' ==> r.stack == pen.stack
  {
    var t := pen.turtle;
    if c == 'F' then
      var (nx, ny) := forward(t);
      Pen(t.(x := nx, y := ny), pen.stack)
    else if c == '+' then Pen(t.(angle := t.angle + turn), pen.stack)
    else if c == '-' then Pen(t.(angle := t.angle - turn), pen.stack)
    else if c == '[' then Pen(t.(depth := t.depth + 1), pen.stack + [t])
    else if c == ']' then
      if |pen.stack| > 0 then Pen(pen.stack[|pen.stack| - 1], pen.stack[..|pen.stack| - 1]) else pen
    else pen
  }

  /** The second pass over a whole string. */
  function Run(s: string, pen: Pen, turn: real, forward: Turtle -> (real, real)): Pen
    decreases |s|
  {
    if |s| == 0 then pen else Run(s[1..], TurtleStep(pen, s[0], turn, forward), turn, forward)
  }

  lemma {:induction false} RunAppend(a: string, b: string, pen: Pen, turn: real, forward: Turtle -> (real, real))
    ensures Run(a + b, pen, turn, forward) == Run(b, Run(a, pen, turn, forward), turn, forward)
    decreases |a|
  {
    if |a| == 0 {
      assert a + b == b;
    } else {
      assert (a + b)[0] == a[0];
      assert (a + b)[1..] == a[1..] + b;
      RunAppend(a[1..], b, TurtleStep(pen, a[0], turn, forward), turn, forward);
    }
  }

  /** A string that never closes more brackets than `extra` saved states leaves the states
      below them untouched, and changes the stack height by its balance. */
  lemma {:induction false} RunKeepsStackBase(s: string, pen: Pen, base: seq<Turtle>, extra: seq<Turtle>,
                                             turn: real, forward: Turtle -> (real, real))
    requires pen.stack == base + extra && |extra| + Low(s) >= 0
    ensures var q := Run(s, pen, turn, forward);
      |q.stack| == |base| + |extra| + Net(s) && base <= q.stack
    decreases |s|
  {
    LowAtMostNet(s);
    if |s| == 0 {
    } else {
      var c, t := s[0], s[1..];
      var q := TurtleStep(pen, c, turn, forward);
      if c == '[' {
        assert q.stack == base + (extra + [pen.turtle]);
        RunKeepsStackBase(t, q, base, extra + [pen.turtle], turn, forward);
      } else if c == ']' {
        assert Low(s) == Min(0, -1 + Low(t)) && Low(t) <= 0;
        assert q.stack == base + extra[..|extra| - 1];
        RunKeepsStackBase(t, q, base, extra[..|extra| - 1], turn, forward);
      } else {
        RunKeepsStackBase(t, q, base, extra, turn, forward);
      }
    }
  }

  /** A bracketed branch returns the turtle exactly where it started: `[` saves the state,
      the balanced body draws its sub-tree, and `]` restores the saved state. */
  lemma BranchRestores(body: string, pen: Pen, turn: real, forward: Turtle -> (real, real))
    requires Net(body) == 0 && Low(body) >= 0
    ensures Run(Branch(body), pen, turn, forward) == pen
  {
    var saved := TurtleStep(pen, '[', turn, forward);
    assert Branch(body)[0] == '[' && Branch(body)[1..] == body + "]";
    RunAppend(body, "]", saved, turn, forward);
    RunKeepsStackBase(body, saved, pen.stack + [pen.turtle], [], turn, forward);
    assert "]"[1..] == [];
  }

  /** Interpreting any generated tree from an empty stack ends with an empty stack, so no
      `]` ever meets an empty stack. */
  lemma GeneratedTreeClosesEveryBranch(n: nat, start: Turtle, turn: real, forward: Turtle -> (real, real))
    ensures Run(Generate(n), Pen(start, []), turn, forward).stack == []
  {
    GenerateIsBalanced(n);
    RunKeepsStackBase(Generate(n), Pen(start, []), [], [], turn, forward);
  }
}
