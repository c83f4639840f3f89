/**
 * The parser of the ContextFree grammar notation (`A -> b C | 'x' | ε`), over the token stream
 * instead of the lexer: the input is the sequence of tokens not yet consumed, and past its end the
 * lexer keeps producing `End`. Parsing reads production nodes (a left-side name token and its
 * alternatives as token lists); conversion then adds START -> first left side and one production per
 * alternative to a new grammar, a name becoming a nonterminal exactly when it is some left side.
 *
 * Its partner is a printer from production nodes back to tokens: parsing a printed node list gives
 * the nodes back.
 */
module CfParser {
  import opened Wrappers
  import opened Symbols
  import opened Grammar
  import CfGrammar

  /** The lexer's token kinds; `Eps` is the `ε` token (the lexer also reads `''` and `eps` as it). */
  datatype TokenKind = End | Name | Literal | Arrow | Or | Eps

  datatype Token = Token(kind: TokenKind, text: string)

  /** A parsed production: its left-side token and, per alternative, the tokens on the right. */
  datatype ProductionNode = ProductionNode(left: Token, rights: seq<seq<Token>>)

  const EndToken: Token := Token(End, "")
  const ArrowToken: Token := Token(Arrow, "->")
  const OrToken: Token := Token(Or, "|")

  /** `A -> eps`, as the lexer delivers it: `eps` is one of the spellings of the `ε` token. */
  const EpsilonExample: seq<Token> := [Token(Name, "A"), ArrowToken, Token(Eps, "eps")]

  /** The production node `A -> eps` reads as. */
  const EpsilonNode: ProductionNode := ProductionNode(Token(Name, "A"), [[Token(Eps, "eps")]])

  /** The `i`-th token ahead; the lexer answers `End` once the input is exhausted. */
  function Peek(ts: seq<Token>, i: nat): Token
  {
    if i < |ts| then ts[i] else EndToken
  }

  /** `Matches`: consume the next token if it has the given kind. */
  function Matches(ts: seq<Token>, kind: TokenKind): (r: (bool, seq<Token>))
    ensures r.0 <==> Peek(ts, 0).kind == kind
    ensures !r.0 ==> r.1 == ts
    ensures r.0 && kind != End ==> |ts| > 0 && r.1 == ts[1..]
  {
    if Peek(ts, 0).kind != kind then (false, ts)
    else if |ts| == 0 then (true, ts)
    else (true, ts[1..])
  }

  /** `Expect`: consume a token of the given kind, or raise. */
  function Expect(ts: seq<Token>, kind: TokenKind): (r: Result<(Token, seq<Token>)>)
    ensures r.Success? <==> Peek(ts, 0).kind == kind
    ensures r.Failure? ==> r.error == NotImplemented
    ensures r.Success? && kind != End ==> |ts| > 0 && r.value == (ts[0], ts[1..])
  {
    if Peek(ts, 0).kind != kind then Failure(NotImplemented)
    else if |ts| == 0 then Success((EndToken, ts))
    else Success((ts[0], ts[1..]))
  }

  // ------------------------------------------------------------------ parsing

  /** A token that can stand on a right side: a literal, or a name. */
  predicate IsElement(t: Token)
  {
    t.kind == Literal || t.kind == Name
  }

  /** Whether `TryParseProductionElement` takes the next token: a literal always, a name unless an arrow follows it. */
  predicate ElementAhead(ts: seq<Token>)
  {
    Peek(ts, 0).kind == Literal || (Peek(ts, 0).kind == Name && Peek(ts, 1).kind != Arrow)
  }

  /**
   * `TryParseProductionElement`: a literal is always consumed; a name only when it does not start the
   * next production (is not followed by an arrow); anything else yields nothing.
   */
  function TryParseProductionElement(ts: seq<Token>): (r: Option<(Token, seq<Token>)>)
    ensures r.Some? <==> ElementAhead(ts)
    ensures r.Some? ==> |ts| > 0 && r.value == (ts[0], ts[1..]) && IsElement(ts[0])
  {
    if ElementAhead(ts) then Some((ts[0], ts[1..])) else None
  }

  /** The element loop of `ParseProductionRight`: the longest run of elements at the front. */
  function ParseElements(ts: seq<Token>): (r: (seq<Token>, seq<Token>))
    ensures r.0 + r.1 == ts
    ensures forall i :: 0 <= i < |r.0| ==> IsElement(r.0[i])
    ensures !ElementAhead(r.1)
    decreases |ts|
  {
    if !ElementAhead(ts) then ([], ts)
    else
      var more := ParseElements(ts[1..]);
      ElementsCons(ts, more.0, more.1);
      ([ts[0]] + more.0, more.1)
  }

  lemma {:induction false} ElementsCons(ts: seq<Token>, elements: seq<Token>, rest: seq<Token>)
    requires |ts| > 0 && IsElement(ts[0]) && elements + rest == ts[1..]
    requires forall i :: 0 <= i < |elements| ==> IsElement(elements[i])
    ensures ([ts[0]] + elements) + rest == ts
    ensures forall i :: 0 <= i < |elements| + 1 ==> IsElement(([ts[0]] + elements)[i])
  {
    assert ([ts[0]] + elements) + rest == [ts[0]] + ts[1..];
  }

  /** A right side as the parser accepts it: the lone `ε` token, or one or more elements. */
  predicate ValidRight(right: seq<Token>)
  {
    || (|right| == 1 && right[0].kind == Eps)
    || (|right| > 0 && forall i :: 0 <= i < |right| ==> IsElement(right[i]))
  }

  /**
   * `ParseProductionRight`: the `ε` token on its own, or at least one element; no element at all
   * raises NotImplemented.
   */
  function ParseProductionRight(ts: seq<Token>): (r: Result<(seq<Token>, seq<Token>)>)
    ensures r.Success? <==> Peek(ts, 0).kind == Eps || ElementAhead(ts)
    ensures r.Failure? ==> r.error == NotImplemented
    ensures r.Success? ==> ValidRight(r.value.0) && r.value.0 + r.value.1 == ts
  {
    if Peek(ts, 0).kind == Eps then Success(([ts[0]], ts[1..]))
    else
      var elements := ParseElements(ts);
      if |elements.0| == 0 then Failure(NotImplemented) else Success(elements)
  }

  /** The `|`-separated alternatives after the first, appended to `acc`. */
  function ParseRightsTail(acc: seq<seq<Token>>, ts: seq<Token>): (r: Result<(seq<seq<Token>>, seq<Token>)>)
    ensures r.Success? ==> |r.value.0| >= |acc| && r.value.0[..|acc|] == acc
    ensures r.Success? ==> forall i :: |acc| <= i < |r.value.0| ==> ValidRight(r.value.0[i])
    ensures r.Success? ==> Peek(r.value.1, 0).kind != Or && |r.value.1| <= |ts|
    ensures r.Failure? ==> r.error == NotImplemented
    decreases |ts|
  {
    var m := Matches(ts, Or);
    if !m.0 then Success((acc, ts))
    else
      var right :- ParseProductionRight(m.1);
      ParseRightsTail(acc + [right.0], right.1)
  }

  /** `ParseProductionRights`: an optional leading `|`, then one or more `|`-separated alternatives. */
  function ParseProductionRights(ts: seq<Token>): (r: Result<(seq<seq<Token>>, seq<Token>)>)
    ensures r.Success? ==> |r.value.0| > 0 && forall i :: 0 <= i < |r.value.0| ==> ValidRight(r.value.0[i])
    ensures r.Success? ==> Peek(r.value.1, 0).kind != Or && |r.value.1| < |ts|
    ensures r.Failure? ==> r.error == NotImplemented
  {
    var skipped := Matches(ts, Or).1;
    var first :- ParseProductionRight(skipped);
    ParseRightsTail([first.0], first.1)
  }

  /** The shape of every parsed node: a name on the left and at least one well-formed alternative. */
  predicate ValidNode(n: ProductionNode)
  {
    && n.left.kind == Name
    && |n.rights| > 0
    && forall i :: 0 <= i < |n.rights| ==> ValidRight(n.rights[i])
  }

  /** `ParseProduction`: a name, an arrow, then the alternatives; a missing name or arrow raises. */
  function ParseProduction(ts: seq<Token>): (r: Result<(ProductionNode, seq<Token>)>)
    ensures r.Success? ==> ValidNode(r.value.0) && |r.value.1| < |ts|
    ensures r.Failure? ==> r.error == NotImplemented
    ensures Peek(ts, 0).kind != Name ==> r.Failure?
  {
    var left :- Expect(ts, Name);
    var arrow :- Expect(left.1, Arrow);
    var rights :- ParseProductionRights(arrow.1);
    Success((ProductionNode(left.0, rights.0), rights.1))
  }

  /** The production loop of `Parse`: productions until the `End` token. */
  function ParseProductions(ts: seq<Token>): (r: Result<seq<ProductionNode>>)
    ensures r.Success? ==> forall i :: 0 <= i < |r.value| ==> ValidNode(r.value[i])
    ensures r.Success? ==> (|r.value| == 0 <==> Peek(ts, 0).kind == End)
    ensures r.Failure? ==> r.error == NotImplemented
    decreases |ts|
  {
    if Peek(ts, 0).kind == End then Success([])
    else
      var p :- ParseProduction(ts);
      var rest :- ParseProductions(p.1);
      Success([p.0] + rest)
  }

  // ------------------------------------------------------------------ conversion

  /** The names of all left sides: exactly these become nonterminals on a right side. */
  function LeftNames(nodes: seq<ProductionNode>): (r: set<string>)
    ensures forall x :: x in r <==> exists i :: 0 <= i < |nodes| && nodes[i].left.text == x
  {
    set i | 0 <= i < |nodes| :: nodes[i].left.text
  }

  /** A right-side token: a nonterminal if its text names a left side, a terminal of that name otherwise. */
  function ToSymbol(names: set<string>, t: Token): Symbol
  {
    if t.text in names then Nonterminal(NtName(t.text)) else Terminal(TermName(t.text))
  }

  /** An alternative as written, token by token. */
  function RightSymbols(names: set<string>, right: seq<Token>): (r: seq<Symbol>)
    ensures |r| == |right|
    ensures forall i :: 0 <= i < |right| ==> r[i] == ToSymbol(names, right[i])
  {
    seq(|right|, i requires 0 <= i < |right| => ToSymbol(names, right[i]))
  }

  /** The alternative that is the lone `ε` token. */
  predicate IsEpsilonRight(right: seq<Token>)
  {
    |right| == 1 && right[0].kind == Eps
  }

  /** How an alternative becomes a right side; `AsWritten` is the parser's, `Intended` drops a lone `ε`. */
  datatype EpsilonMode = AsWritten | Intended

  /** The right side for an alternative under the given treatment of `ε`. */
  function RightOf(mode: EpsilonMode, names: set<string>, right: seq<Token>): seq<Symbol>
  {
    if mode == Intended && IsEpsilonRight(right) then [] else RightSymbols(names, right)
  }

  /** The production of alternative `j` of node `n`. */
  function AltProduction(mode: EpsilonMode, names: set<string>, n: ProductionNode, j: int): Production
    requires 0 <= j < |n.rights|
  {
    Production(NtName(n.left.text), RightOf(mode, names, n.rights[j]))
  }

  /** The productions of one node, one per alternative, in order. */
  function NodeProductions(mode: EpsilonMode, names: set<string>, n: ProductionNode): (r: seq<Production>)
    ensures |r| == |n.rights|
    ensures forall j :: 0 <= j < |n.rights| ==> r[j] == AltProduction(mode, names, n, j)
  {
    seq(|n.rights|, j requires 0 <= j < |n.rights| => AltProduction(mode, names, n, j))
  }

  /** Some alternative of some node gives `p`. */
  ghost predicate FromSomeAlternative(mode: EpsilonMode, names: set<string>, nodes: seq<ProductionNode>, p: Production)
  {
    exists i, j :: 0 <= i < |nodes| && 0 <= j < |nodes[i].rights| && p == AltProduction(mode, names, nodes[i], j)
  }

  /** The productions of all nodes, node by node: exactly one per alternative of some node. */
  function NodesProductions(mode: EpsilonMode, names: set<string>, nodes: seq<ProductionNode>): (r: seq<Production>)
    ensures forall p :: p in r <==> FromSomeAlternative(mode, names, nodes, p)
    decreases |nodes|
  {
    if |nodes| == 0 then []
    else
      var head := NodeProductions(mode, names, nodes[0]);
      var tail := NodesProductions(mode, names, nodes[1..]);
      forall p | p in tail
        ensures FromSomeAlternative(mode, names, nodes, p)
      {
        var i, j :| 0 <= i < |nodes[1..]| && 0 <= j < |nodes[1..][i].rights| && p == AltProduction(mode, names, nodes[1..][i], j);
        assert nodes[1..][i] == nodes[i + 1];
      }
      forall p | FromSomeAlternative(mode, names, nodes, p)
        ensures p in head + tail
      {
        var i, j :| 0 <= i < |nodes| && 0 <= j < |nodes[i].rights| && p == AltProduction(mode, names, nodes[i], j);
        if i == 0 {
          assert head[j] == p;
        } else {
          assert nodes[1..][i - 1] == nodes[i];
          assert FromSomeAlternative(mode, names, nodes[1..], p);
        }
      }
      head + tail
  }

  /** START -> the first left side, registered before anything else; none when there is no production. */
  function StartProductions(nodes: seq<ProductionNode>): seq<Production>
  {
    if |nodes| == 0 then [] else [Production(Start, [Nonterminal(NtName(nodes[0].left.text))])]
  }

  /** All productions `Parse` registers, in order. */
  function Converted(mode: EpsilonMode, nodes: seq<ProductionNode>): seq<Production>
  {
    StartProductions(nodes) + NodesProductions(mode, LeftNames(nodes), nodes)
  }

  /** What the ContextFree `AddProduction` accepts: neither START nor ε on the right side. */
  predicate Admissible(p: Production)
  {
    Nonterminal(Start) !in p.right && Epsilon !in p.right
  }

  /**
   * Registers the productions in order with the ContextFree `AddProduction`; the first refused one
   * raises its argument error.
   */
  function AddAll(g: Grammar, ps: seq<Production>): (r: Result<Grammar>)
    requires WellFiled(g)
    ensures r.Success? ==> WellFiled(r.value)
    decreases |ps|
  {
    if |ps| == 0 then Success(g)
    else
      var o := CfGrammar.AddProduction(g, ps[0]);
      if o.error.Some? then Failure(o.error.value) else AddAll(o.grammar, ps[1..])
  }

  /** Every production of `ps` is admissible, read front to back. */
  predicate AllAdmissible(ps: seq<Production>)
    decreases |ps|
  {
    |ps| == 0 || (Admissible(ps[0]) && AllAdmissible(ps[1..]))
  }

  lemma {:induction false} AllAdmissibleMeans(ps: seq<Production>)
    ensures AllAdmissible(ps) <==> forall p :: p in ps ==> Admissible(p)
    decreases |ps|
  {
    if |ps| > 0 {
      AllAdmissibleMeans(ps[1..]);
      assert ps == [ps[0]] + ps[1..];
    }
  }

  lemma {:induction false} AddAllSucceedsStep(g: Grammar, ps: seq<Production>)
    requires WellFiled(g)
    ensures AddAll(g, ps).Success? <==> AllAdmissible(ps)
    ensures AddAll(g, ps).Failure? ==> AddAll(g, ps).error == ArgumentError
    decreases |ps|
  {
    if |ps| > 0 {
      var o := CfGrammar.AddProduction(g, ps[0]);
      if o.error.None? {
        AddAllSucceedsStep(o.grammar, ps[1..]);
      }
    }
  }

  /** Registration succeeds exactly when every production is admissible; otherwise it raises an argument error. */
  lemma {:induction false} AddAllSucceeds(g: Grammar, ps: seq<Production>)
    requires WellFiled(g)
    ensures AddAll(g, ps).Success? <==> forall p :: p in ps ==> Admissible(p)
    ensures AddAll(g, ps).Failure? ==> AddAll(g, ps).error == ArgumentError
  {
    AddAllSucceedsStep(g, ps);
    AllAdmissibleMeans(ps);
  }

  /** The productions of a sequence, as a set. */
  function Elements(ps: seq<Production>): (r: set<Production>)
    ensures forall p :: p in r <==> p in ps
  {
    set p | p in ps
  }

  lemma {:induction false} ElementsSplit(ps: seq<Production>)
    requires |ps| > 0
    ensures Elements(ps) == {ps[0]} + Elements(ps[1..])
  {
    assert ps == [ps[0]] + ps[1..];
  }

  /** A successful registration adds exactly the given productions and keeps the start symbol. */
  lemma {:induction false} AddAllContents(g: Grammar, ps: seq<Production>)
    requires WellFiled(g) && AddAll(g, ps).Success?
    ensures AddAll(g, ps).value.start == g.start
    ensures Productions(AddAll(g, ps).value) == Productions(g) + Elements(ps)
    decreases |ps|
  {
    if |ps| > 0 {
      var o := CfGrammar.AddProduction(g, ps[0]);
      AddAllContents(o.grammar, ps[1..]);
      ElementsSplit(ps);
      var a, b := Productions(g), Productions(o.grammar);
      assert b == a + {ps[0]};
    }
  }

  /** Registration from a valid grammar yields a valid grammar: every cache it leaves is coherent. */
  lemma {:induction false} AddAllValid(g: Grammar, ps: seq<Production>)
    requires Valid(g) && AddAll(g, ps).Success?
    ensures Valid(AddAll(g, ps).value)
    decreases |ps|
  {
    if |ps| > 0 {
      var o := CfGrammar.AddProduction(g, ps[0]);
      AddAllValid(o.grammar, ps[1..]);
    }
  }

  /** `Parse` with the given treatment of `ε`: read the productions, then convert them. */
  function ParseWith(mode: EpsilonMode, ts: seq<Token>): Result<Grammar>
  {
    var nodes :- ParseProductions(ts);
    AddAll(CfGrammar.NewGrammar(), Converted(mode, nodes))
  }

  /** `CfParser.Parse`, as written. */
  function Parse(ts: seq<Token>): Result<Grammar>
  {
    ParseWith(AsWritten, ts)
  }

  /** `CfParser.Parse` as the notation means it: an `ε` alternative is an empty right side. */
  function ParseIntended(ts: seq<Token>): Result<Grammar>
  {
    ParseWith(Intended, ts)
  }

  // ------------------------------------------------------------------ properties of the conversion

  /** START -> the first left side: the one production with START on the left. */
  function StartProduction(nodes: seq<ProductionNode>): Production
    requires |nodes| > 0
  {
    Production(Start, [Nonterminal(NtName(nodes[0].left.text))])
  }

  /** A converted right side never holds START or ε: names become named symbols only. */
  lemma {:induction false} RightOfAdmissible(mode: EpsilonMode, names: set<string>, right: seq<Token>)
    ensures Nonterminal(Start) !in RightOf(mode, names, right)
    ensures Epsilon !in RightOf(mode, names, right)
  {
    var r := RightOf(mode, names, right);
    forall k | 0 <= k < |r|
      ensures r[k] != Nonterminal(Start) && r[k] != Epsilon
    {
      assert r[k] == ToSymbol(names, right[k]);
    }
  }

  /** Everything the conversion registers is admissible, so registering it never raises. */
  lemma {:induction false} ConvertedAdmissible(mode: EpsilonMode, nodes: seq<ProductionNode>)
    ensures forall p :: p in Converted(mode, nodes) ==> Admissible(p)
  {
    var names := LeftNames(nodes);
    forall p | p in Converted(mode, nodes)
      ensures Admissible(p)
    {
      if p !in StartProductions(nodes) {
        assert p in NodesProductions(mode, names, nodes);
        var i, j :| 0 <= i < |nodes| && 0 <= j < |nodes[i].rights| && p == AltProduction(mode, names, nodes[i], j);
        RightOfAdmissible(mode, names, nodes[i].rights[j]);
      }
    }
  }

  /**
   * The converted productions: START -> the first left side, and for every alternative of every node
   * one production from that node's left side. Nothing else.
   */
  lemma {:induction false} ConvertedMembers(mode: EpsilonMode, nodes: seq<ProductionNode>, p: Production)
    ensures p in Converted(mode, nodes) <==>
              || (|nodes| > 0 && p == StartProduction(nodes))
              || exists i, j :: 0 <= i < |nodes| && 0 <= j < |nodes[i].rights| && p == AltProduction(mode, LeftNames(nodes), nodes[i], j)
  {
    assert p in Converted(mode, nodes) <==> p in StartProductions(nodes) || p in NodesProductions(mode, LeftNames(nodes), nodes);
  }

  /** The left sides: START and the name of every node, each of which has at least one alternative. */
  lemma {:induction false} ConvertedLefts(mode: EpsilonMode, nodes: seq<ProductionNode>)
    requires forall i :: 0 <= i < |nodes| ==> ValidNode(nodes[i])
    ensures |nodes| == 0 ==> Lefts(Elements(Converted(mode, nodes))) == {}
    ensures |nodes| > 0 ==> Lefts(Elements(Converted(mode, nodes))) == LeftsOf(LeftNames(nodes))
  {
    var names := LeftNames(nodes);
    var ps := Elements(Converted(mode, nodes));
    if |nodes| == 0 {
      assert ps == {};
    } else {
      var want := LeftsOf(names);
      forall n | n in Lefts(ps)
        ensures n in want
      {
        var p :| p in ps && p.left == n;
        ConvertedMembers(mode, nodes, p);
        if p != StartProduction(nodes) {
          var i, j :| 0 <= i < |nodes| && 0 <= j < |nodes[i].rights| && p == AltProduction(mode, names, nodes[i], j);
          assert nodes[i].left.text in names;
        }
      }
      forall n | n in want
        ensures n in Lefts(ps)
      {
        if n == Start {
          ConvertedMembers(mode, nodes, StartProduction(nodes));
          assert StartProduction(nodes) in ps;
        } else {
          var x :| x in names && n == NtName(x);
          var i :| 0 <= i < |nodes| && nodes[i].left.text == x;
          assert ValidNode(nodes[i]);
          ConvertedMembers(mode, nodes, AltProduction(mode, names, nodes[i], 0));
          assert AltProduction(mode, names, nodes[i], 0) in ps;
        }
      }
    }
  }

  /** The left sides of a non-empty conversion, from the left names. */
  function LeftsOf(names: set<string>): set<NtId>
  {
    {Start} + (set x | x in names :: NtName(x))
  }

  lemma {:induction false} InLeftsOf(names: set<string>, x: string)
    ensures NtName(x) in LeftsOf(names) <==> x in names
  {
    if x in names {
      assert NtName(x) in (set y | y in names :: NtName(y));
    }
  }

  /** One converted symbol: a nonterminal when its name is a left side, otherwise a terminal of that name. */
  lemma {:induction false} SymbolClassified(mode: EpsilonMode, nodes: seq<ProductionNode>, p: Production, k: int)
    requires p in Converted(mode, nodes) && 0 <= k < |p.right|
    ensures p.right[k].Nonterminal? ==> p.right[k].n.NtName? && p.right[k].n.name in LeftNames(nodes)
    ensures p.right[k].Terminal? ==> p.right[k].t.TermName? && p.right[k].t.name !in LeftNames(nodes)
  {
    var names := LeftNames(nodes);
    ConvertedMembers(mode, nodes, p);
    if |nodes| > 0 && p == StartProduction(nodes) {
      assert nodes[0].left.text in names;
    } else {
      var i, j :| 0 <= i < |nodes| && 0 <= j < |nodes[i].rights| && p == AltProduction(mode, names, nodes[i], j);
      assert p.right[k] == ToSymbol(names, nodes[i].rights[j][k]);
    }
  }

  /**
   * A name on a right side becomes a nonterminal exactly when some production has it on the left;
   * every other name becomes a terminal of that name.
   */
  lemma {:induction false} ConvertedClassifies(mode: EpsilonMode, nodes: seq<ProductionNode>)
    requires forall i :: 0 <= i < |nodes| ==> ValidNode(nodes[i])
    ensures forall p, k :: p in Converted(mode, nodes) && 0 <= k < |p.right| ==>
              && (p.right[k].Nonterminal? ==> p.right[k].n in Lefts(Elements(Converted(mode, nodes))))
              && (p.right[k].Terminal? ==>
                    p.right[k].t.TermName? && NtName(p.right[k].t.name) !in Lefts(Elements(Converted(mode, nodes))))
  {
    var names := LeftNames(nodes);
    var lefts := Lefts(Elements(Converted(mode, nodes)));
    ConvertedLefts(mode, nodes);
    forall p, k | p in Converted(mode, nodes) && 0 <= k < |p.right|
      ensures p.right[k].Nonterminal? ==> p.right[k].n in lefts
      ensures p.right[k].Terminal? ==> p.right[k].t.TermName? && NtName(p.right[k].t.name) !in lefts
    {
      SymbolClassified(mode, nodes, p, k);
      assert |nodes| > 0 ==> lefts == LeftsOf(names);
      if p.right[k].Nonterminal? {
        InLeftsOf(names, p.right[k].n.name);
      } else if p.right[k].Terminal? {
        InLeftsOf(names, p.right[k].t.name);
      }
    }
  }

  // ------------------------------------------------------------------ properties of `Parse`

  /**
   * `Parse` fails exactly when reading the productions fails, always with NotImplemented: the
   * conversion never registers a refused production.
   */
  lemma {:induction false} ParseWithFails(mode: EpsilonMode, ts: seq<Token>)
    ensures ParseWith(mode, ts).Success? <==> ParseProductions(ts).Success?
    ensures ParseWith(mode, ts).Failure? ==> ParseWith(mode, ts).error == NotImplemented
  {
    var nodes := ParseProductions(ts);
    if nodes.Success? {
      ConvertedAdmissible(mode, nodes.value);
      AddAllSucceeds(CfGrammar.NewGrammar(), Converted(mode, nodes.value));
    }
  }

  /** On success the grammar starts at START and holds exactly the converted productions. */
  lemma {:induction false} ParseWithSpec(mode: EpsilonMode, ts: seq<Token>)
    requires ParseProductions(ts).Success?
    ensures ParseWith(mode, ts).Success?
    ensures ParseWith(mode, ts).value.start == Some(Start)
    ensures Productions(ParseWith(mode, ts).value) == Elements(Converted(mode, ParseProductions(ts).value))
  {
    ParseWithFails(mode, ts);
    AddAllContents(CfGrammar.NewGrammar(), Converted(mode, ParseProductions(ts).value));
  }

  /** On success the grammar is valid: its caches, all empty, are trivially coherent. */
  lemma {:induction false} ParseWithValid(mode: EpsilonMode, ts: seq<Token>)
    requires ParseWith(mode, ts).Success?
    ensures Valid(ParseWith(mode, ts).value)
  {
    AddAllValid(CfGrammar.NewGrammar(), Converted(mode, ParseProductions(ts).value));
  }

  /**
   * In a parsed grammar every right-side nonterminal has productions of its own, and every terminal
   * is a name no production has on its left.
   */
  lemma {:induction false} ParseClassifies(mode: EpsilonMode, ts: seq<Token>)
    requires ParseWith(mode, ts).Success?
    ensures forall p, k :: p in Productions(ParseWith(mode, ts).value) && 0 <= k < |p.right| ==>
              && (p.right[k].Nonterminal? ==> p.right[k].n in Lefts(Productions(ParseWith(mode, ts).value)))
              && (p.right[k].Terminal? ==>
                    p.right[k].t.TermName? && NtName(p.right[k].t.name) !in Lefts(Productions(ParseWith(mode, ts).value)))
  {
    ParseWithSpec(mode, ts);
    ConvertedClassifies(mode, ParseProductions(ts).value);
  }

  /** The parsed grammar's only START production leads to the first production's left side. */
  lemma {:induction false} ParseStart(mode: EpsilonMode, ts: seq<Token>)
    requires ParseWith(mode, ts).Success?
    ensures var nodes := ParseProductions(ts).value;
            |nodes| > 0 ==>
              && StartProduction(nodes) in Productions(ParseWith(mode, ts).value)
              && forall p :: p in Productions(ParseWith(mode, ts).value) && p.left == Start ==> p == StartProduction(nodes)
    ensures Peek(ts, 0).kind == End ==> Productions(ParseWith(mode, ts).value) == {}
  {
    ParseWithSpec(mode, ts);
    var nodes := ParseProductions(ts).value;
    forall p | p in Converted(mode, nodes)
      ensures |nodes| > 0 && p.left == Start ==> p == StartProduction(nodes)
    {
      ConvertedMembers(mode, nodes, p);
    }
    if |nodes| > 0 {
      ConvertedMembers(mode, nodes, StartProduction(nodes));
    }
  }

  // ------------------------------------------------------------------ printing, and the round trip

  /** The alternatives after the first, each preceded by `|`. */
  function PrintAlternatives(rights: seq<seq<Token>>): seq<Token>
    decreases |rights|
  {
    if |rights| == 0 then [] else [OrToken] + rights[0] + PrintAlternatives(rights[1..])
  }

  /** A node as the notation writes it: `left -> right | right ...`. */
  function PrintNode(n: ProductionNode): seq<Token>
    requires |n.rights| > 0
  {
    [n.left, ArrowToken] + n.rights[0] + PrintAlternatives(n.rights[1..])
  }

  function PrintNodes(nodes: seq<ProductionNode>): seq<Token>
    requires forall i :: 0 <= i < |nodes| ==> ValidNode(nodes[i])
    decreases |nodes|
  {
    if |nodes| == 0 then [] else assert ValidNode(nodes[0]); PrintNode(nodes[0]) + PrintNodes(nodes[1..])
  }

  /** What may follow a node: the end of the input, or the name and arrow that open the next node. */
  predicate NodeStop(ts: seq<Token>)
  {
    Peek(ts, 0).kind == End || (Peek(ts, 0).kind == Name && Peek(ts, 1).kind == Arrow)
  }

  /** What may follow an alternative: nothing the element loop would take, and no arrow. */
  predicate RightStop(ts: seq<Token>)
  {
    !ElementAhead(ts) && Peek(ts, 0).kind != Arrow
  }

  /** The element loop reads back exactly the elements in front of a stop. */
  lemma {:induction false} ElementsRoundTrip(right: seq<Token>, tail: seq<Token>)
    requires forall i :: 0 <= i < |right| ==> IsElement(right[i])
    requires RightStop(tail)
    ensures ParseElements(right + tail) == (right, tail)
    decreases |right|
  {
    if |right| > 0 {
      var ts := right + tail;
      assert ts[1..] == right[1..] + tail;
      assert Peek(ts, 1) == if |right| > 1 then right[1] else Peek(tail, 0);
      ElementsRoundTrip(right[1..], tail);
      assert [right[0]] + right[1..] == right;
    } else {
      assert right + tail == tail;
    }
  }

  /** `ParseProductionRight` reads back one well-formed alternative in front of a stop. */
  lemma {:induction false} RightRoundTrip(right: seq<Token>, tail: seq<Token>)
    requires ValidRight(right) && RightStop(tail)
    ensures ParseProductionRight(right + tail) == Success((right, tail))
  {
    var ts := right + tail;
    if right[0].kind == Eps {
      assert ts[1..] == tail;
    } else {
      ElementsRoundTrip(right, tail);
    }
  }

  /** Printed alternatives: a `|`, the first, then the rest. */
  lemma {:induction false} AlternativesShape(rights: seq<seq<Token>>, tail: seq<Token>)
    ensures |rights| == 0 ==> PrintAlternatives(rights) + tail == tail
    ensures |rights| > 0 ==>
              PrintAlternatives(rights) + tail == [OrToken] + (rights[0] + (PrintAlternatives(rights[1..]) + tail))
  {
    if |rights| > 0 {
      var more := PrintAlternatives(rights[1..]);
      assert PrintAlternatives(rights) == [OrToken] + rights[0] + more;
      assert [OrToken] + rights[0] + more + tail == [OrToken] + (rights[0] + (more + tail));
    } else {
      assert PrintAlternatives(rights) == [];
    }
  }

  /** Printed alternatives in front of a node stop: a `|` comes next, or the stop itself. */
  lemma {:induction false} AlternativesAhead(rights: seq<seq<Token>>, tail: seq<Token>)
    requires NodeStop(tail)
    ensures RightStop(PrintAlternatives(rights) + tail)
    ensures |rights| == 0 ==> PrintAlternatives(rights) + tail == tail
    ensures |rights| > 0 ==>
              PrintAlternatives(rights) + tail == [OrToken] + (rights[0] + (PrintAlternatives(rights[1..]) + tail))
  {
    AlternativesShape(rights, tail);
    if |rights| > 0 {
      var ts := PrintAlternatives(rights) + tail;
      assert Peek(ts, 0) == OrToken;
    }
  }

  /** One round of the `|` loop: a `|` and an alternative move it to what follows. */
  lemma {:induction false} RightsTailStep(acc: seq<seq<Token>>, ts: seq<Token>, right: seq<Token>, after: seq<Token>)
    requires |ts| > 0 && ts[0].kind == Or
    requires ParseProductionRight(ts[1..]) == Success((right, after))
    ensures ParseRightsTail(acc, ts) == ParseRightsTail(acc + [right], after)
  {
  }

  lemma {:induction false} AppendFront<T>(acc: seq<T>, xs: seq<T>)
    requires |xs| > 0
    ensures acc + [xs[0]] + xs[1..] == acc + xs
  {
    assert [xs[0]] + xs[1..] == xs;
  }

  /** The `|` loop reads back the printed alternatives in front of a node stop. */
  lemma {:induction false} AlternativesRoundTrip(acc: seq<seq<Token>>, rights: seq<seq<Token>>, tail: seq<Token>)
    requires forall i :: 0 <= i < |rights| ==> ValidRight(rights[i])
    requires NodeStop(tail)
    ensures ParseRightsTail(acc, PrintAlternatives(rights) + tail) == Success((acc + rights, tail))
    decreases |rights|
  {
    AlternativesAhead(rights, tail);
    if |rights| == 0 {
      assert !Matches(tail, Or).0;
      assert acc + rights == acc;
    } else {
      var after := PrintAlternatives(rights[1..]) + tail;
      var ts := PrintAlternatives(rights) + tail;
      assert ts[1..] == rights[0] + after;
      AlternativesAhead(rights[1..], tail);
      RightRoundTrip(rights[0], after);
      RightsTailStep(acc, ts, rights[0], after);
      AlternativesRoundTrip(acc + [rights[0]], rights[1..], tail);
      AppendFront(acc, rights);
    }
  }

  /** `ParseProduction` reads back a printed node in front of a node stop. */
  lemma {:induction false} NodeRoundTrip(n: ProductionNode, tail: seq<Token>)
    requires ValidNode(n) && NodeStop(tail)
    ensures ParseProduction(PrintNode(n) + tail) == Success((n, tail))
  {
    var alternatives := PrintAlternatives(n.rights[1..]) + tail;
    var ts := PrintNode(n) + tail;
    assert ts == [n.left, ArrowToken] + (n.rights[0] + alternatives);
    assert ts[1..][1..] == n.rights[0] + alternatives;
    AlternativesAhead(n.rights[1..], tail);
    assert Matches(n.rights[0] + alternatives, Or).1 == n.rights[0] + alternatives by {
      assert IsElement(n.rights[0][0]) || n.rights[0][0].kind == Eps;
    }
    RightRoundTrip(n.rights[0], alternatives);
    AlternativesRoundTrip([n.rights[0]], n.rights[1..], tail);
    assert [n.rights[0]] + n.rights[1..] == n.rights;
  }

  /** Printed nodes: the first node, then the rest. */
  lemma {:induction false} PrintedNodesShape(nodes: seq<ProductionNode>, rest: seq<Token>)
    requires forall i :: 0 <= i < |nodes| ==> ValidNode(nodes[i])
    ensures |nodes| == 0 ==> PrintNodes(nodes) + rest == rest
    ensures |nodes| > 0 ==>
              && PrintNodes(nodes) + rest == PrintNode(nodes[0]) + (PrintNodes(nodes[1..]) + rest)
              && Peek(PrintNodes(nodes) + rest, 0) == nodes[0].left
              && Peek(PrintNodes(nodes) + rest, 1) == ArrowToken
  {
    if |nodes| > 0 {
      assert ValidNode(nodes[0]);
      var head, more := PrintNode(nodes[0]), PrintNodes(nodes[1..]);
      assert PrintNodes(nodes) == head + more;
      assert head + more + rest == head + (more + rest);
      assert head[0] == nodes[0].left && head[1] == ArrowToken;
    } else {
      assert PrintNodes(nodes) == [];
    }
  }

  /** Printed nodes start a node: a name, then the arrow. */
  lemma {:induction false} PrintedNodesAhead(nodes: seq<ProductionNode>, rest: seq<Token>)
    requires forall i :: 0 <= i < |nodes| ==> ValidNode(nodes[i])
    requires Peek(rest, 0).kind == End
    ensures NodeStop(PrintNodes(nodes) + rest)
    ensures |nodes| > 0 ==> PrintNodes(nodes) + rest == PrintNode(nodes[0]) + (PrintNodes(nodes[1..]) + rest)
  {
    PrintedNodesShape(nodes, rest);
    if |nodes| > 0 {
      assert ValidNode(nodes[0]);
    }
  }

  /** Parsing printed nodes gives the nodes back, whatever follows the `End` token. */
  lemma {:induction false} NodesRoundTrip(nodes: seq<ProductionNode>, rest: seq<Token>)
    requires forall i :: 0 <= i < |nodes| ==> ValidNode(nodes[i])
    requires Peek(rest, 0).kind == End
    ensures ParseProductions(PrintNodes(nodes) + rest) == Success(nodes)
    decreases |nodes|
  {
    PrintedNodesAhead(nodes, rest);
    if |nodes| == 0 {
      assert PrintNodes(nodes) + rest == rest;
    } else {
      var tail := PrintNodes(nodes[1..]) + rest;
      var ts := PrintNodes(nodes) + rest;
      assert ts == PrintNode(nodes[0]) + tail;
      PrintedNodesAhead(nodes[1..], rest);
      NodeRoundTrip(nodes[0], tail);
      assert ParseProduction(ts) == Success((nodes[0], tail));
      NodesRoundTrip(nodes[1..], rest);
      assert ParseProductions(tail) == Success(nodes[1..]);
      assert Peek(ts, 0).kind == Name;
      assert ParseProductions(ts) == Success([nodes[0]] + nodes[1..]);
      assert [nodes[0]] + nodes[1..] == nodes;
    }
  }

  /** Parsing a printed grammar registers exactly the productions the nodes convert to. */
  lemma {:induction false} PrintedParses(mode: EpsilonMode, nodes: seq<ProductionNode>)
    requires forall i :: 0 <= i < |nodes| ==> ValidNode(nodes[i])
    ensures ParseWith(mode, PrintNodes(nodes)).Success?
    ensures Productions(ParseWith(mode, PrintNodes(nodes)).value) == Elements(Converted(mode, nodes))
  {
    NodesRoundTrip(nodes, []);
    assert PrintNodes(nodes) + [] == PrintNodes(nodes);
    ParseWithSpec(mode, PrintNodes(nodes));
  }

  /** An optional `|` before the first alternative changes nothing; a second one is an error. */
  lemma {:induction false} LeadingOrIgnored(ts: seq<Token>)
    ensures Peek(ts, 0).kind != Or ==> ParseProductionRights([OrToken] + ts) == ParseProductionRights(ts)
    ensures Peek(ts, 0).kind == Or ==> ParseProductionRights([OrToken] + ts) == Failure(NotImplemented)
  {
    assert ([OrToken] + ts)[1..] == ts;
  }

  // ------------------------------------------------------------------ the `ε` alternative

  lemma {:induction false} EpsilonExampleReads()
    ensures ParseProductions(EpsilonExample) == Success([EpsilonNode])
  {
    assert ValidNode([EpsilonNode][0]);
    NodesRoundTrip([EpsilonNode], []);
    assert PrintNodes([EpsilonNode]) + [] == EpsilonExample;
  }

  /** What `A -> ε` converts to: START -> A, and A -> the `ε` terminal as written or A -> nothing as intended. */
  lemma {:induction false} EpsilonNodeConverts(mode: EpsilonMode)
    ensures Converted(mode, [EpsilonNode]) ==
              [Production(Start, [Nonterminal(NtName("A"))]),
               Production(NtName("A"), if mode == Intended then [] else [Terminal(TermName("eps"))])]
  {
    var nodes := [EpsilonNode];
    var names := LeftNames(nodes);
    assert names == {"A"} by {
      assert nodes[0].left.text == "A";
    }
    var alt := AltProduction(mode, names, EpsilonNode, 0);
    assert alt == Production(NtName("A"), if mode == Intended then [] else [Terminal(TermName("eps"))]) by {
      assert ToSymbol(names, Token(Eps, "eps")) == Terminal(TermName("eps"));
    }
    assert NodeProductions(mode, names, EpsilonNode) == [alt];
    assert NodesProductions(mode, names, nodes[1..]) == [];
    assert NodesProductions(mode, names, nodes) == [alt];
  }

  /**
   * As written, the `ε` alternative is converted like any other token: `A -> ε` registers a production
   * whose right side is the terminal named `ε`, and no empty production.
   */
  lemma {:induction false} EpsilonAlternativeAsWritten()
    ensures Parse(EpsilonExample).Success?
    ensures Production(NtName("A"), [Terminal(TermName("eps"))]) in Productions(Parse(EpsilonExample).value)
    ensures Production(NtName("A"), []) !in Productions(Parse(EpsilonExample).value)
  {
    EpsilonExampleReads();
    ParseWithSpec(AsWritten, EpsilonExample);
    EpsilonNodeConverts(AsWritten);
    assert Production(NtName("A"), [Terminal(TermName("eps"))]) in Converted(AsWritten, [EpsilonNode]);
  }

  /** As written, no parsed grammar has an empty production: the notation cannot express one. */
  lemma {:induction false} AsWrittenNoEmptyProduction(ts: seq<Token>)
    requires Parse(ts).Success?
    ensures forall p :: p in Productions(Parse(ts).value) ==> |p.right| > 0
  {
    ParseWithSpec(AsWritten, ts);
    var nodes := ParseProductions(ts).value;
    forall p | p in Converted(AsWritten, nodes)
      ensures |p.right| > 0
    {
      ConvertedMembers(AsWritten, nodes, p);
      if !(|nodes| > 0 && p == StartProduction(nodes)) {
        var i, j :| 0 <= i < |nodes| && 0 <= j < |nodes[i].rights| && p == AltProduction(AsWritten, LeftNames(nodes), nodes[i], j);
        assert ValidNode(nodes[i]);
      }
    }
  }

  /** Corrected: `A -> ε` registers the empty production for `A`. */
  lemma {:induction false} EpsilonAlternativeIntended()
    ensures ParseIntended(EpsilonExample).Success?
    ensures Production(NtName("A"), []) in Productions(ParseIntended(EpsilonExample).value)
    ensures Production(NtName("A"), [Terminal(TermName("eps"))]) !in Productions(ParseIntended(EpsilonExample).value)
  {
    EpsilonExampleReads();
    ParseWithSpec(Intended, EpsilonExample);
    EpsilonNodeConverts(Intended);
    assert Production(NtName("A"), []) in Converted(Intended, [EpsilonNode]);
  }

  /** Some production node for `x` has the lone `ε` token as an alternative. */
  ghost predicate HasEpsilonAlternative(nodes: seq<ProductionNode>, x: string)
  {
    exists i, j :: 0 <= i < |nodes| && 0 <= j < |nodes[i].rights| && nodes[i].left.text == x && IsEpsilonRight(nodes[i].rights[j])
  }

  /**
   * Corrected, in general: the parsed grammar has the empty production for `x` exactly when some
   * node for `x` has the `ε` alternative.
   */
  lemma {:induction false} IntendedEmptyProductions(ts: seq<Token>, x: string)
    requires ParseIntended(ts).Success?
    ensures Production(NtName(x), []) in Productions(ParseIntended(ts).value) <==>
              HasEpsilonAlternative(ParseProductions(ts).value, x)
  {
    ParseWithSpec(Intended, ts);
    var nodes := ParseProductions(ts).value;
    var names := LeftNames(nodes);
    var e := Production(NtName(x), []);
    ConvertedMembers(Intended, nodes, e);
    if e in Converted(Intended, nodes) {
      var i, j :| 0 <= i < |nodes| && 0 <= j < |nodes[i].rights| && e == AltProduction(Intended, names, nodes[i], j);
      assert ValidNode(nodes[i]);
      assert IsEpsilonRight(nodes[i].rights[j]);
    }
    if HasEpsilonAlternative(nodes, x) {
      var i, j :| 0 <= i < |nodes| && 0 <= j < |nodes[i].rights| && nodes[i].left.text == x && IsEpsilonRight(nodes[i].rights[j]);
      assert e == AltProduction(Intended, names, nodes[i], j);
    }
  }
}
