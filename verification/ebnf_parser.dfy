/**
 * The eBNF recursive-descent parser, over the token stream instead of the lexer: the input is the
 * sequence of tokens not yet consumed, and past its end the lexer keeps producing `End`. Each parse
 * function returns what it built together with the remaining tokens, or the exception the parser
 * raises.
 *
 * Its partner is a printer from concrete syntax trees to tokens together with the tree the parser
 * is meant to build from them (`AltAst`, `ToGrammar`): parsing a printed grammar gives that tree,
 * or fails with the same exception.
 */
module EbnfParser {
  import opened Wrappers
  import opened EbnfAst

  datatype TokenKind =
    | End | Name | Number | Literal | Assign | Comma | Semicolon | Or | Plus | Star | QuestionMark
    | OpenParen | CloseParen | OpenBracket | CloseBracket | OpenBrace | CloseBrace

  datatype Token = Token(kind: TokenKind, text: string)

  datatype Flavor = Standard | Regex

  /** The parsed grammar: rules by name, and the name of the first rule. */
  datatype EbnfGrammar = EbnfGrammar(rules: map<string, Ast>, startRule: Option<string>)

  const EndToken: Token := Token(End, "")

  /** The `i`-th token ahead; the lexer answers `End` once the input is exhausted. */
  function Peek(ts: seq<Token>, i: nat): Token
  {
    if i < |ts| then ts[i] else EndToken
  }

  /** `Expect`: consume a token of the given kind, or raise. */
  function Expect(ts: seq<Token>, kind: TokenKind): (r: Result<(Token, seq<Token>)>)
    ensures r.Success? <==> Peek(ts, 0).kind == kind
    ensures r.Failure? ==> r.error == NotImplemented
    ensures r.Success? && kind != End ==> |ts| > 0 && r.value == (ts[0], ts[1..])
  {
    if Peek(ts, 0).kind != kind then Failure(NotImplemented)
    else if |ts| == 0 then Success((EndToken, ts))
    else Success((ts[0], ts[1..]))
  }

  // ------------------------------------------------------------------ int.Parse

  const IntMax: int := 0x7fff_ffff

  predicate IsDigits(s: string)
  {
    |s| > 0 && forall i :: 0 <= i < |s| ==> '0' <= s[i] <= '9'
  }

  function DigitValue(c: char): nat
    requires '0' <= c <= '9'
  {
    c as int - '0' as int
  }

  /** The value of a string of decimal digits. */
  function DecimalValue(s: string): nat
    requires forall i :: 0 <= i < |s| ==> '0' <= s[i] <= '9'
  {
    if |s| == 0 then 0 else DecimalValue(s[..|s| - 1]) * 10 + DigitValue(s[|s| - 1])
  }

  /**
   * `int.Parse` on a number token's text: decimal digits up to `int.MaxValue`. Any other text
   * raises a format error, and a value beyond `int.MaxValue` an overflow.
   */
  function ParseInt(s: string): (r: Result<int>)
    ensures r.Success? <==> IsDigits(s) && DecimalValue(s) <= IntMax
    ensures r.Success? ==> r.value == DecimalValue(s)
    ensures r.Failure? ==> (r.error == Format <==> !IsDigits(s)) && (r.error == Overflow <==> IsDigits(s))
  {
    if !IsDigits(s) then Failure(Format)
    else if DecimalValue(s) > IntMax then Failure(Overflow)
    else Success(DecimalValue(s))
  }

  /** The decimal digits of `n`, most significant first, without leading zeros. */
  function Digits(n: nat): (r: string)
    ensures IsDigits(r)
  {
    if n < 10 then [('0' as int + n) as char] else Digits(n / 10) + [('0' as int + n % 10) as char]
  }

  /** Reading back the digits of a number gives the number, up to `int.MaxValue`. */
  lemma {:induction false} DigitsRoundTrip(n: nat)
    ensures DecimalValue(Digits(n)) == n
    ensures n <= IntMax ==> ParseInt(Digits(n)) == Success(n)
  {
    if n >= 10 {
      DigitsRoundTrip(n / 10);
      var d := Digits(n);
      assert d[..|d| - 1] == Digits(n / 10);
    }
  }

  // ------------------------------------------------------------------ the parser

  /**
   * `ParseAlt`: at top level skip one leading `|`; then sequences separated by `|`, folded left
   * into `Alt`.
   */
  function ParseAlt(ts: seq<Token>, top: bool, fl: Flavor): (r: Result<(Ast, seq<Token>)>)
    ensures r.Success? ==> |r.value.1| <= |ts|
    decreases |ts|, 6
  {
    if top && Peek(ts, 0).kind == Or then ParseAltBody(ts[1..], top, fl) else ParseAltBody(ts, top, fl)
  }

  /** `ParseAlt` after the optional leading `|`: a first sequence, then the `|`-separated rest. */
  function ParseAltBody(ts: seq<Token>, top: bool, fl: Flavor): (r: Result<(Ast, seq<Token>)>)
    ensures r.Success? ==> |r.value.1| <= |ts|
    decreases |ts|, 5
  {
    var first :- ParseSeq(ts, top, fl);
    AltTail(first.0, first.1, top, fl)
  }

  /** The loop of `ParseAlt`: while a `|` follows, parse another sequence. */
  function AltTail(acc: Ast, ts: seq<Token>, top: bool, fl: Flavor): (r: Result<(Ast, seq<Token>)>)
    ensures r.Success? ==> |r.value.1| <= |ts|
    decreases |ts|, 4
  {
    if Peek(ts, 0).kind == Or then
      var next :- ParseSeq(ts[1..], top, fl);
      AltTail(Alt(acc, next.0), next.1, top, fl)
    else Success((acc, ts))
  }

  /** `ParseSeq`: postfix expressions folded left into `Seq`, starting from ε. */
  function ParseSeq(ts: seq<Token>, top: bool, fl: Flavor): (r: Result<(Ast, seq<Token>)>)
    ensures r.Success? ==> |r.value.1| <= |ts|
    decreases |ts|, 3
  {
    SeqTail(Epsilon, ts, top, fl)
  }

  /** The loop of `ParseSeq`: while another postfix expression parses, append it. */
  function SeqTail(acc: Ast, ts: seq<Token>, top: bool, fl: Flavor): (r: Result<(Ast, seq<Token>)>)
    ensures r.Success? ==> |r.value.1| <= |ts|
    decreases |ts|, 2
  {
    var next :- TryParsePostfix(ts, top, fl);
    match next
    case None => Success((acc, ts))
    case Some((p, ts')) => SeqTail(Seq(acc, p), ts', top, fl)
  }

  /** `TryParsePostfix`: an atom, then in the regex flavour any number of postfix operators. */
  function TryParsePostfix(ts: seq<Token>, top: bool, fl: Flavor): (r: Result<Option<(Ast, seq<Token>)>>)
    ensures r.Success? && r.value.Some? ==> |r.value.value.1| < |ts|
    decreases |ts|, 1
  {
    var atom :- TryParseAtom(ts, top, fl);
    match atom
    case None => Success(None)
    case Some((a, ts')) =>
      if fl == Regex then
        var p :- PostfixLoop(a, ts');
        Success(Some(p))
      else Success(Some((a, ts')))
  }

  /**
   * `TryParseAtom`: nothing when, at top level, a name is followed by `=` (that starts the next
   * rule); a name or literal is a reference; parentheses group; in the standard flavour braces
   * repeat and brackets make optional.
   */
  function TryParseAtom(ts: seq<Token>, top: bool, fl: Flavor): (r: Result<Option<(Ast, seq<Token>)>>)
    ensures r.Success? && r.value.Some? ==> |r.value.value.1| < |ts|
    decreases |ts|, 0
  {
    var peek := Peek(ts, 0);
    if top && peek.kind == Name && Peek(ts, 1).kind == Assign then Success(None)
    else if peek.kind == Name || peek.kind == Literal then Success(Some((Reference(peek.text), ts[1..])))
    else if peek.kind == OpenParen then
      var sub :- ParseAlt(ts[1..], false, fl);
      var close :- Expect(sub.1, CloseParen);
      Success(Some((sub.0, close.1)))
    else if fl == Standard && peek.kind == OpenBrace then
      var sub :- ParseAlt(ts[1..], false, fl);
      var close :- Expect(sub.1, CloseBrace);
      Success(Some((ZeroOrMore(sub.0).value, close.1)))
    else if fl == Standard && peek.kind == OpenBracket then
      var sub :- ParseAlt(ts[1..], false, fl);
      var close :- Expect(sub.1, CloseBracket);
      Success(Some((Opt(sub.0), close.1)))
    else Success(None)
  }

  /** The postfix loop of the regex flavour: `?`, `*`, `+` and brace repetitions, left to right. */
  function PostfixLoop(result: Ast, ts: seq<Token>): (r: Result<(Ast, seq<Token>)>)
    ensures r.Success? ==> |r.value.1| <= |ts|
    decreases |ts|
  {
    var kind := Peek(ts, 0).kind;
    if kind == QuestionMark then PostfixLoop(Opt(result), ts[1..])
    else if kind == Star then
      PostfixLoop(ZeroOrMore(result).value, ts[1..])
    else if kind == Plus then
      PostfixLoop(OneOrMore(result).value, ts[1..])
    else if kind == OpenBrace then
      var braced :- ParseBraces(result, ts[1..]);
      PostfixLoop(braced.0, braced.1)
    else Success((result, ts))
  }

  /**
   * A brace repetition after its `{`: `{n,m}`, `{n,}`, `{n}` or `{,m}`. Each bound is read with
   * `int.Parse` as soon as its token is taken, and any other form raises.
   */
  function ParseBraces(element: Ast, ts: seq<Token>): (r: Result<(Ast, seq<Token>)>)
    ensures r.Success? ==> |r.value.1| < |ts|
    ensures Peek(ts, 0).kind != Number && Peek(ts, 0).kind != Comma ==> r == Failure(NotImplemented)
  {
    var peek := Peek(ts, 0);
    if peek.kind == Number then
      var lower :- ParseInt(peek.text);
      var ts1 := ts[1..];
      if Peek(ts1, 0).kind == Comma then
        var ts2 := ts1[1..];
        if Peek(ts2, 0).kind == Number then
          var upperToken := ts2[0];
          var close :- Expect(ts2[1..], CloseBrace);
          var upper :- ParseInt(upperToken.text);
          var rep :- Between(element, lower, upper);
          Success((rep, close.1))
        else if Peek(ts2, 0).kind == CloseBrace then
          var rep :- AtLeast(element, lower);
          Success((rep, ts2[1..]))
        else Failure(NotImplemented)
      else if Peek(ts1, 0).kind == CloseBrace then
        var rep :- Exactly(element, lower);
        Success((rep, ts1[1..]))
      else Failure(NotImplemented)
    else if peek.kind == Comma then
      var upperToken :- Expect(ts[1..], Number);
      var close :- Expect(upperToken.1, CloseBrace);
      var upper :- ParseInt(upperToken.0.text);
      var rep :- AtMost(element, upper);
      Success((rep, close.1))
    else Failure(NotImplemented)
  }

  /** `ParseRuleDefinition`: a name, `=`, the alternatives at top level, and an optional `;`. */
  function ParseRuleDefinition(ts: seq<Token>, fl: Flavor): (r: Result<((string, Ast), seq<Token>)>)
    ensures r.Success? ==> |ts| > 0 && ts[0].kind == Name && r.value.0.0 == ts[0].text
    ensures r.Success? ==> |r.value.1| < |ts|
    ensures Peek(ts, 0).kind != Name ==> r == Failure(NotImplemented)
  {
    var left :- Expect(ts, Name);
    var assign :- Expect(left.1, Assign);
    var right :- ParseAlt(assign.1, true, fl);
    var after := if Peek(right.1, 0).kind == Semicolon then right.1[1..] else right.1;
    Success(((left.0.text, right.0), after))
  }

  /** The loop of `Parse`: rules until `End`; the first rule is the start rule, and a repeated name raises. */
  function ParseRules(ts: seq<Token>, fl: Flavor, rules: map<string, Ast>, start: Option<string>): (r: Result<EbnfGrammar>)
    ensures r.Success? ==> rules.Keys <= r.value.rules.Keys
    ensures r.Success? && start.Some? ==> r.value.startRule == start
    ensures r.Success? && start.None? ==> (r.value.startRule.Some? <==> r.value.rules.Keys != rules.Keys)
    ensures r.Success? && r.value.startRule.Some? && start.None? ==> r.value.startRule.value in r.value.rules.Keys - rules.Keys
    decreases |ts|
  {
    if Peek(ts, 0).kind == End then Success(EbnfGrammar(rules, start))
    else
      var def :- ParseRuleDefinition(ts, fl);
      var name := def.0.0;
      var start' := if start.None? then Some(name) else start;
      if name in rules then Failure(ArgumentError)
      else ParseRules(def.1, fl, rules[name := def.0.1], start')
  }

  /** `Parse`: the whole token stream as a grammar. The start rule is one of the rules, and there is one exactly when some rule was read. */
  function Parse(ts: seq<Token>, fl: Flavor): (r: Result<EbnfGrammar>)
    ensures r.Success? ==> (r.value.startRule.Some? <==> |r.value.rules| > 0)
    ensures r.Success? && r.value.startRule.Some? ==> r.value.startRule.value in r.value.rules
  {
    var r := ParseRules(ts, fl, map[], None);
    if r.Success? then
      assert r.value.startRule.Some? <==> r.value.rules.Keys != {};
      assert |r.value.rules| > 0 <==> r.value.rules.Keys != {} by {
        if r.value.rules.Keys != {} {
          var k :| k in r.value.rules.Keys;
        }
      }
      r
    else r
  }

  // ------------------------------------------------------------------ concrete syntax

  /** A concrete alternative list: a first sequence, then one sequence after each `|`. */
  datatype AltSyn = AltSyn(first: SeqSyn, rest: seq<SeqSyn>)

  datatype SeqSyn = SeqSyn(items: seq<PostfixSyn>)

  /** An atom followed by postfix operators (regex flavour only). */
  datatype PostfixSyn = PostfixSyn(atom: AtomSyn, ops: seq<OpSyn>)

  datatype AtomSyn =
    | NameAtom(name: string)
    | LiteralAtom(literal: string)
    | Group(body: AltSyn)
    | Braces(body: AltSyn)      // standard flavour only
    | Brackets(body: AltSyn)    // standard flavour only

  /** The postfix operators; the bounds are the texts of the number tokens. */
  datatype OpSyn =
    | OptOp | StarOp | PlusOp
    | BetweenOp(lo: string, hi: string)
    | AtLeastOp(lo: string)
    | ExactlyOp(n: string)
    | AtMostOp(hi: string)

  /** A rule as written: name, `=`, an optional leading `|`, the body, an optional `;`. */
  datatype RuleSyn = RuleSyn(name: string, leadingOr: bool, body: AltSyn, semicolon: bool)

  predicate ValidOps(ops: seq<OpSyn>, fl: Flavor)
  {
    fl == Standard ==> |ops| == 0
  }

  predicate ValidAlt(a: AltSyn, fl: Flavor)
  {
    ValidSeq(a.first, fl) && ValidAlts(a.rest, fl)
  }

  predicate ValidAlts(alts: seq<SeqSyn>, fl: Flavor)
  {
    |alts| > 0 ==> ValidSeq(alts[0], fl) && ValidAlts(alts[1..], fl)
  }

  predicate ValidSeq(s: SeqSyn, fl: Flavor)
  {
    ValidItems(s.items, fl)
  }

  predicate ValidItems(items: seq<PostfixSyn>, fl: Flavor)
  {
    |items| > 0 ==> ValidPostfix(items[0], fl) && ValidItems(items[1..], fl)
  }

  predicate ValidPostfix(p: PostfixSyn, fl: Flavor)
  {
    ValidAtom(p.atom, fl) && ValidOps(p.ops, fl)
  }

  /** Braces and brackets are atoms in the standard flavour only. */
  predicate ValidAtom(a: AtomSyn, fl: Flavor)
  {
    match a
    case NameAtom(_) => true
    case LiteralAtom(_) => true
    case Group(b) => ValidAlt(b, fl)
    case Braces(b) => fl == Standard && ValidAlt(b, fl)
    case Brackets(b) => fl == Standard && ValidAlt(b, fl)
  }

  /**
   * A rule is unambiguous unless it omits the leading `|` while its body starts with one: the
   * parser would skip that `|` as the optional leading one.
   */
  predicate ValidRule(r: RuleSyn, fl: Flavor)
  {
    && ValidAlt(r.body, fl)
    && (r.leadingOr || |r.body.first.items| > 0 || |r.body.rest| == 0)
  }

  predicate ValidRules(rules: seq<RuleSyn>, fl: Flavor)
  {
    forall i :: 0 <= i < |rules| ==> ValidRule(rules[i], fl)
  }

  function PrintAlt(a: AltSyn): seq<Token>
  {
    PrintSeq(a.first) + PrintAlts(a.rest)
  }

  function PrintAlts(alts: seq<SeqSyn>): seq<Token>
  {
    if |alts| == 0 then [] else [Token(Or, "|")] + PrintSeq(alts[0]) + PrintAlts(alts[1..])
  }

  function PrintSeq(s: SeqSyn): seq<Token>
  {
    PrintItems(s.items)
  }

  function PrintItems(items: seq<PostfixSyn>): seq<Token>
  {
    if |items| == 0 then [] else PrintPostfix(items[0]) + PrintItems(items[1..])
  }

  function PrintPostfix(p: PostfixSyn): seq<Token>
  {
    PrintAtom(p.atom) + PrintOps(p.ops)
  }

  function PrintAtom(a: AtomSyn): seq<Token>
  {
    match a
    case NameAtom(n) => [Token(Name, n)]
    case LiteralAtom(l) => [Token(Literal, l)]
    case Group(b) => [Token(OpenParen, "(")] + PrintAlt(b) + [Token(CloseParen, ")")]
    case Braces(b) => [Token(OpenBrace, "{")] + PrintAlt(b) + [Token(CloseBrace, "}")]
    case Brackets(b) => [Token(OpenBracket, "[")] + PrintAlt(b) + [Token(CloseBracket, "]")]
  }

  function PrintOps(ops: seq<OpSyn>): seq<Token>
  {
    if |ops| == 0 then [] else PrintOp(ops[0]) + PrintOps(ops[1..])
  }

  function PrintOp(op: OpSyn): seq<Token>
  {
    match op
    case OptOp => [Token(QuestionMark, "?")]
    case StarOp => [Token(Star, "*")]
    case PlusOp => [Token(Plus, "+")]
    case BetweenOp(lo, hi) =>
      [Token(OpenBrace, "{"), Token(Number, lo), Token(Comma, ","), Token(Number, hi), Token(CloseBrace, "}")]
    case AtLeastOp(lo) => [Token(OpenBrace, "{"), Token(Number, lo), Token(Comma, ","), Token(CloseBrace, "}")]
    case ExactlyOp(n) => [Token(OpenBrace, "{"), Token(Number, n), Token(CloseBrace, "}")]
    case AtMostOp(hi) => [Token(OpenBrace, "{"), Token(Comma, ","), Token(Number, hi), Token(CloseBrace, "}")]
  }

  function PrintRule(r: RuleSyn): seq<Token>
  {
    [Token(Name, r.name), Token(Assign, "=")]
    + (if r.leadingOr then [Token(Or, "|")] else [])
    + PrintAlt(r.body)
    + (if r.semicolon then [Token(Semicolon, ";")] else [])
  }

  function PrintRules(rules: seq<RuleSyn>): seq<Token>
  {
    if |rules| == 0 then [] else PrintRule(rules[0]) + PrintRules(rules[1..])
  }

  // ------------------------------------------------------------------ the trees the syntax denotes

  /** Alternatives fold left into `Alt`. */
  function AltAst(a: AltSyn): Result<Ast>
    decreases a, 1
  {
    var first :- SeqAst(a.first);
    AltsAst(first, a.rest)
  }

  function AltsAst(acc: Ast, alts: seq<SeqSyn>): Result<Ast>
    decreases alts
  {
    if |alts| == 0 then Success(acc)
    else
      var next :- SeqAst(alts[0]);
      AltsAst(Alt(acc, next), alts[1..])
  }

  /** A sequence folds left into `Seq`, starting from ε; the empty sequence is ε. */
  function SeqAst(s: SeqSyn): Result<Ast>
    decreases s, 1
  {
    ItemsAst(Epsilon, s.items)
  }

  function ItemsAst(acc: Ast, items: seq<PostfixSyn>): Result<Ast>
    decreases items
  {
    if |items| == 0 then Success(acc)
    else
      var p :- PostfixAst(items[0]);
      ItemsAst(Seq(acc, p), items[1..])
  }

  function PostfixAst(p: PostfixSyn): Result<Ast>
    decreases p, 1
  {
    var a :- AtomAst(p.atom);
    ApplyOps(a, p.ops)
  }

  /** Names and literals are references; a group is its body; `{x}` is zero-or-more and `[x]` optional. */
  function AtomAst(a: AtomSyn): Result<Ast>
    decreases a, 1
  {
    match a
    case NameAtom(n) => Success(Reference(n))
    case LiteralAtom(l) => Success(Reference(l))
    case Group(b) => AltAst(b)
    case Braces(b) =>
      var sub :- AltAst(b);
      ZeroOrMore(sub)
    case Brackets(b) =>
      var sub :- AltAst(b);
      Success(Opt(sub))
  }

  function ApplyOps(r: Ast, ops: seq<OpSyn>): Result<Ast>
    decreases |ops|
  {
    if |ops| == 0 then Success(r)
    else
      var applied :- ApplyOp(r, ops[0]);
      ApplyOps(applied, ops[1..])
  }

  /** `?` is `Opt`, `*` and `+` the unbounded repetitions, and the brace forms the bounded ones. */
  function ApplyOp(r: Ast, op: OpSyn): Result<Ast>
  {
    match op
    case OptOp => Success(Opt(r))
    case StarOp => ZeroOrMore(r)
    case PlusOp => OneOrMore(r)
    case BetweenOp(lo, hi) =>
      var l :- ParseInt(lo);
      var h :- ParseInt(hi);
      Between(r, l, h)
    case AtLeastOp(lo) =>
      var l :- ParseInt(lo);
      AtLeast(r, l)
    case ExactlyOp(n) =>
      var k :- ParseInt(n);
      Exactly(r, k)
    case AtMostOp(hi) =>
      var h :- ParseInt(hi);
      AtMost(r, h)
  }

  function RuleAst(r: RuleSyn): Result<Ast>
  {
    AltAst(r.body)
  }

  /** The grammar the rules denote: the first rule starts it, and a repeated name is an argument error. */
  function ToGrammar(rules: seq<RuleSyn>, acc: map<string, Ast>, start: Option<string>): Result<EbnfGrammar>
  {
    if |rules| == 0 then Success(EbnfGrammar(acc, start))
    else
      var ast :- RuleAst(rules[0]);
      var name := rules[0].name;
      if name in acc then Failure(ArgumentError)
      else ToGrammar(rules[1..], acc[name := ast], if start.None? then Some(name) else start)
  }

  // ------------------------------------------------------------------ round trip

  /** A tree and the tokens after it, or the failure. */
  function Lift(r: Result<Ast>, rest: seq<Token>): Result<(Ast, seq<Token>)>
  {
    match r
    case Failure(e) => Failure(e)
    case Success(a) => Success((a, rest))
  }

  function LiftSome(r: Result<Ast>, rest: seq<Token>): Result<Option<(Ast, seq<Token>)>>
  {
    match r
    case Failure(e) => Failure(e)
    case Success(a) => Success(Some((a, rest)))
  }

  /** The postfix loop resumed after an operator was applied, or the operator's failure. */
  function ThenLoop(r: Result<Ast>, rest: seq<Token>): Result<(Ast, seq<Token>)>
  {
    match r
    case Failure(e) => Failure(e)
    case Success(a) => PostfixLoop(a, rest)
  }

  /** The sequence loop resumed after an item was appended, or the item's failure. */
  function ThenSeqTail(r: Result<Ast>, rest: seq<Token>, top: bool, fl: Flavor): Result<(Ast, seq<Token>)>
  {
    match r
    case Failure(e) => Failure(e)
    case Success(a) => SeqTail(a, rest, top, fl)
  }

  function LiftRule(name: string, r: Result<Ast>, rest: seq<Token>): Result<((string, Ast), seq<Token>)>
  {
    match r
    case Failure(e) => Failure(e)
    case Success(a) => Success(((name, a), rest))
  }

  /** A token that continues a postfix expression in the regex flavour. */
  predicate OpStart(t: Token, fl: Flavor)
  {
    fl == Regex && (t.kind == QuestionMark || t.kind == Star || t.kind == Plus || t.kind == OpenBrace)
  }

  /** A token that can begin an atom. */
  predicate AtomStart(t: Token, fl: Flavor)
  {
    t.kind == Name || t.kind == Literal || t.kind == OpenParen
    || (fl == Standard && (t.kind == OpenBrace || t.kind == OpenBracket))
  }

  /** What may follow a sequence: no atom starts here (at top level, a name before `=` does not count). */
  predicate SeqEnds(rest: seq<Token>, top: bool, fl: Flavor)
  {
    && !OpStart(Peek(rest, 0), fl)
    && Peek(rest, 0).kind != Assign
    && (!AtomStart(Peek(rest, 0), fl) || (top && Peek(rest, 0).kind == Name && Peek(rest, 1).kind == Assign))
  }

  lemma {:induction false} PrintPostfixStarts(p: PostfixSyn, rest: seq<Token>, fl: Flavor)
    requires ValidPostfix(p, fl)
    ensures |PrintPostfix(p)| > 0
    ensures Peek(PrintPostfix(p) + rest, 0) == PrintPostfix(p)[0]
    ensures AtomStart(PrintPostfix(p)[0], fl) && !OpStart(PrintPostfix(p)[0], fl)
    ensures PrintPostfix(p)[0].kind != Assign && PrintPostfix(p)[0].kind != Or
  {
  }

  /** What printed items begin with: an atom, so neither an operator nor `=` nor `|`, or else what follows them. */
  lemma {:induction false} ItemsPeek(items: seq<PostfixSyn>, rest: seq<Token>, fl: Flavor)
    requires ValidItems(items, fl)
    requires !OpStart(Peek(rest, 0), fl) && Peek(rest, 0).kind != Assign
    ensures !OpStart(Peek(PrintItems(items) + rest, 0), fl) && Peek(PrintItems(items) + rest, 0).kind != Assign
    ensures |items| > 0 ==> Peek(PrintItems(items) + rest, 0).kind != Or
    ensures |items| == 0 ==> PrintItems(items) + rest == rest
  {
    if |items| > 0 {
      var head := PrintPostfix(items[0]);
      var tail := PrintItems(items[1..]) + rest;
      PrintPostfixStarts(items[0], tail, fl);
      assert PrintItems(items) + rest == head + tail;
      assert Peek(PrintItems(items) + rest, 0) == head[0];
    } else {
      assert PrintItems(items) == [];
    }
  }

  /** Printed `|`-alternatives begin with `|`, or else are empty, so a sequence before them ends there. */
  lemma {:induction false} AltsPeek(alts: seq<SeqSyn>, rest: seq<Token>, top: bool, fl: Flavor)
    requires SeqEnds(rest, top, fl)
    ensures SeqEnds(PrintAlts(alts) + rest, top, fl)
    ensures |alts| > 0 ==> Peek(PrintAlts(alts) + rest, 0).kind == Or
    ensures |alts| == 0 ==> PrintAlts(alts) + rest == rest
  {
    if |alts| > 0 {
      AltsSplit(alts, rest);
    } else {
      assert PrintAlts(alts) + rest == rest;
    }
  }

  /** Printed `|`-alternatives: a `|`, the first sequence, then the others. */
  lemma {:induction false} AltsSplit(alts: seq<SeqSyn>, rest: seq<Token>)
    requires |alts| > 0
    ensures Peek(PrintAlts(alts) + rest, 0).kind == Or
    ensures (PrintAlts(alts) + rest)[1..] == PrintSeq(alts[0]) + (PrintAlts(alts[1..]) + rest)
  {
    assert PrintAlts(alts) + rest == [Token(Or, "|")] + (PrintSeq(alts[0]) + (PrintAlts(alts[1..]) + rest));
  }

  /** A brace repetition, printed after its `{`, is read back as the repetition it denotes. */
  lemma {:induction false} BracesRoundTrip(r: Ast, op: OpSyn, rest: seq<Token>)
    requires op.BetweenOp? || op.AtLeastOp? || op.ExactlyOp? || op.AtMostOp?
    ensures ParseBraces(r, PrintOp(op)[1..] + rest) == Lift(ApplyOp(r, op), rest)
  {
    match op
    case BetweenOp(lo, hi) => BetweenRoundTrip(r, lo, hi, rest);
    case AtLeastOp(lo) => AtLeastRoundTrip(r, lo, rest);
    case ExactlyOp(n) => ExactlyRoundTrip(r, n, rest);
    case AtMostOp(hi) => AtMostRoundTrip(r, hi, rest);
  }

  lemma BetweenRoundTrip(r: Ast, lo: string, hi: string, rest: seq<Token>)
    ensures ParseBraces(r, PrintOp(BetweenOp(lo, hi))[1..] + rest) == Lift(ApplyOp(r, BetweenOp(lo, hi)), rest)
  {
    var ts := PrintOp(BetweenOp(lo, hi))[1..] + rest;
    assert ts[1..][1..] == [Token(Number, hi), Token(CloseBrace, "}")] + rest;
    assert ts[1..][1..][1..] == [Token(CloseBrace, "}")] + rest;
  }

  lemma AtLeastRoundTrip(r: Ast, lo: string, rest: seq<Token>)
    ensures ParseBraces(r, PrintOp(AtLeastOp(lo))[1..] + rest) == Lift(ApplyOp(r, AtLeastOp(lo)), rest)
  {
    var ts := PrintOp(AtLeastOp(lo))[1..] + rest;
    assert ts[1..][1..] == [Token(CloseBrace, "}")] + rest;
    assert ts[1..][1..][1..] == rest;
  }

  lemma ExactlyRoundTrip(r: Ast, n: string, rest: seq<Token>)
    ensures ParseBraces(r, PrintOp(ExactlyOp(n))[1..] + rest) == Lift(ApplyOp(r, ExactlyOp(n)), rest)
  {
    var ts := PrintOp(ExactlyOp(n))[1..] + rest;
    assert ts[1..] == [Token(CloseBrace, "}")] + rest;
    assert ts[1..][1..] == rest;
  }

  lemma AtMostRoundTrip(r: Ast, hi: string, rest: seq<Token>)
    ensures ParseBraces(r, PrintOp(AtMostOp(hi))[1..] + rest) == Lift(ApplyOp(r, AtMostOp(hi)), rest)
  {
    var ts := PrintOp(AtMostOp(hi))[1..] + rest;
    assert ts[1..] == [Token(Number, hi), Token(CloseBrace, "}")] + rest;
    assert ts[1..][1..] == [Token(CloseBrace, "}")] + rest;
    assert ts[1..][1..][1..] == rest;
  }

  /** One postfix operator, printed, is read back as that operator applied. */
  lemma {:induction false} OpRoundTrip(r: Ast, op: OpSyn, rest: seq<Token>)
    ensures PostfixLoop(r, PrintOp(op) + rest) == ThenLoop(ApplyOp(r, op), rest)
  {
    var ts := PrintOp(op) + rest;
    match op
    case OptOp =>
      assert ts[0].kind == QuestionMark && ts[1..] == rest;
    case StarOp =>
      assert ts[0].kind == Star && ts[1..] == rest;
    case PlusOp =>
      assert ts[0].kind == Plus && ts[1..] == rest;
    case _ =>
      BraceOpRoundTrip(r, op, rest);
  }

  /** A brace repetition, printed with its `{`, is read back as the repetition it denotes. */
  lemma {:induction false} BraceOpRoundTrip(r: Ast, op: OpSyn, rest: seq<Token>)
    requires op.BetweenOp? || op.AtLeastOp? || op.ExactlyOp? || op.AtMostOp?
    ensures PostfixLoop(r, PrintOp(op) + rest) == ThenLoop(ApplyOp(r, op), rest)
  {
    var ts := PrintOp(op) + rest;
    assert ts == [Token(OpenBrace, "{")] + (PrintOp(op)[1..] + rest);
    BracesRoundTrip(r, op, rest);
  }

  /** Printed operators are read back one by one, and the loop carries on with what follows. */
  lemma {:induction false} OpsRoundTrip(r: Ast, ops: seq<OpSyn>, rest: seq<Token>)
    ensures PostfixLoop(r, PrintOps(ops) + rest) ==
              ThenLoop(ApplyOps(r, ops), rest)
    decreases |ops|
  {
    if |ops| == 0 {
      assert PrintOps(ops) + rest == rest;
    } else {
      assert PrintOps(ops) + rest == PrintOp(ops[0]) + (PrintOps(ops[1..]) + rest);
      OpRoundTrip(r, ops[0], PrintOps(ops[1..]) + rest);
      match ApplyOp(r, ops[0])
      case Failure(_) =>
      case Success(r1) =>
        OpsRoundTrip(r1, ops[1..], rest);
    }
  }

  /** An alternative list inside brackets of some kind is read back up to its closing bracket. */
  lemma {:induction false} EnclosedRoundTrip(b: AltSyn, close: Token, rest: seq<Token>, fl: Flavor)
    requires ValidAlt(b, fl)
    requires close.kind == CloseParen || close.kind == CloseBrace || close.kind == CloseBracket
    ensures ParseAlt(PrintAlt(b) + ([close] + rest), false, fl) == Lift(AltAst(b), [close] + rest)
    decreases b, 3
  {
    AltBodyRoundTrip(b, [close] + rest, false, fl);
  }

  /** An atom, printed, is read back as its tree, when no `=` follows at top level. */
  lemma {:induction false} AtomRoundTrip(a: AtomSyn, rest: seq<Token>, top: bool, fl: Flavor)
    requires ValidAtom(a, fl)
    requires Peek(rest, 0).kind != Assign
    ensures TryParseAtom(PrintAtom(a) + rest, top, fl) == LiftSome(AtomAst(a), rest)
    decreases a, 1
  {
    var ts := PrintAtom(a) + rest;
    match a
    case NameAtom(_) =>
      assert ts[1..] == rest;
    case LiteralAtom(_) =>
      assert ts[1..] == rest;
    case Group(b) =>
      var close := Token(CloseParen, ")");
      assert ts == [Token(OpenParen, "(")] + (PrintAlt(b) + ([close] + rest));
      EnclosedRoundTrip(b, close, rest, fl);
      assert Expect([close] + rest, CloseParen) == Success((close, rest));
    case Braces(_) =>
      BracketsRoundTrip(a, rest, top, fl);
    case Brackets(_) =>
      BracketsRoundTrip(a, rest, top, fl);
  }

  /** The standard flavour's repetition and option brackets, printed, are read back as their trees. */
  lemma {:induction false} BracketsRoundTrip(a: AtomSyn, rest: seq<Token>, top: bool, fl: Flavor)
    requires a.Braces? || a.Brackets?
    requires ValidAtom(a, fl)
    ensures TryParseAtom(PrintAtom(a) + rest, top, fl) == LiftSome(AtomAst(a), rest)
    decreases a, 0
  {
    var ts := PrintAtom(a) + rest;
    if a.Braces? {
      var close := Token(CloseBrace, "}");
      assert ts == [Token(OpenBrace, "{")] + (PrintAlt(a.body) + ([close] + rest));
      EnclosedRoundTrip(a.body, close, rest, fl);
      assert Expect([close] + rest, CloseBrace) == Success((close, rest));
    } else {
      var close := Token(CloseBracket, "]");
      assert ts == [Token(OpenBracket, "[")] + (PrintAlt(a.body) + ([close] + rest));
      EnclosedRoundTrip(a.body, close, rest, fl);
      assert Expect([close] + rest, CloseBracket) == Success((close, rest));
    }
  }

  /** A postfix expression, printed, is read back as its tree when no operator follows it. */
  lemma {:induction false} PostfixRoundTrip(p: PostfixSyn, rest: seq<Token>, top: bool, fl: Flavor)
    requires ValidPostfix(p, fl)
    requires !OpStart(Peek(rest, 0), fl) && Peek(rest, 0).kind != Assign
    ensures TryParsePostfix(PrintPostfix(p) + rest, top, fl) == LiftSome(PostfixAst(p), rest)
    decreases p, 1
  {
    var opsRest := PrintOps(p.ops) + rest;
    assert PrintPostfix(p) + rest == PrintAtom(p.atom) + opsRest;
    if fl == Regex {
      if |p.ops| > 0 {
        assert Peek(opsRest, 0) == PrintOp(p.ops[0])[0];
      } else {
        assert opsRest == rest;
      }
      AtomRoundTrip(p.atom, opsRest, top, fl);
      match AtomAst(p.atom)
      case Failure(_) =>
      case Success(a) =>
        OpsRoundTrip(a, p.ops, rest);
        match ApplyOps(a, p.ops)
        case Failure(_) =>
        case Success(r) =>
          assert PostfixLoop(r, rest) == Success((r, rest));
    } else {
      assert opsRest == rest;
      AtomRoundTrip(p.atom, rest, top, fl);
    }
  }

  /** Printed items are read back one by one, and the loop carries on with what follows. */
  lemma {:induction false} ItemsRoundTrip(acc: Ast, items: seq<PostfixSyn>, rest: seq<Token>, top: bool, fl: Flavor)
    requires ValidItems(items, fl)
    requires !OpStart(Peek(rest, 0), fl) && Peek(rest, 0).kind != Assign
    ensures SeqTail(acc, PrintItems(items) + rest, top, fl) ==
              ThenSeqTail(ItemsAst(acc, items), rest, top, fl)
    decreases items, 0
  {
    if |items| == 0 {
      assert PrintItems(items) + rest == rest;
    } else {
      var after := PrintItems(items[1..]) + rest;
      assert PrintItems(items) + rest == PrintPostfix(items[0]) + after;
      ItemsPeek(items[1..], rest, fl);
      PostfixRoundTrip(items[0], after, top, fl);
      match PostfixAst(items[0])
      case Failure(_) =>
      case Success(p) =>
        ItemsRoundTrip(Seq(acc, p), items[1..], rest, top, fl);
    }
  }

  /** A sequence, printed, is read back as its tree when it is followed by something that ends it. */
  lemma {:induction false} SeqRoundTrip(s: SeqSyn, rest: seq<Token>, top: bool, fl: Flavor)
    requires ValidSeq(s, fl)
    requires SeqEnds(rest, top, fl)
    ensures ParseSeq(PrintSeq(s) + rest, top, fl) == Lift(SeqAst(s), rest)
    decreases s, 1
  {
    ItemsRoundTrip(Epsilon, s.items, rest, top, fl);
    match SeqAst(s)
    case Failure(_) =>
    case Success(a) =>
      assert TryParseAtom(rest, top, fl) == Success(None);
      assert SeqTail(a, rest, top, fl) == Success((a, rest));
  }

  /** Printed `|`-alternatives are read back one by one, and the loop carries on with what follows. */
  lemma {:induction false} AltsRoundTrip(acc: Ast, alts: seq<SeqSyn>, rest: seq<Token>, top: bool, fl: Flavor)
    requires ValidAlts(alts, fl)
    requires SeqEnds(rest, top, fl) && Peek(rest, 0).kind != Or
    ensures AltTail(acc, PrintAlts(alts) + rest, top, fl) == Lift(AltsAst(acc, alts), rest)
    decreases alts, 0
  {
    if |alts| == 0 {
      assert PrintAlts(alts) + rest == rest;
    } else {
      var after := PrintAlts(alts[1..]) + rest;
      AltsSplit(alts, rest);
      AltsPeek(alts[1..], rest, top, fl);
      SeqRoundTrip(alts[0], after, top, fl);
      match SeqAst(alts[0])
      case Failure(_) =>
      case Success(s) =>
        AltsRoundTrip(Alt(acc, s), alts[1..], rest, top, fl);
    }
  }

  /** An alternative list, printed, is read back as its tree when it is followed by something that ends it. */
  lemma {:induction false} AltBodyRoundTrip(a: AltSyn, rest: seq<Token>, top: bool, fl: Flavor)
    requires ValidAlt(a, fl)
    requires SeqEnds(rest, top, fl) && Peek(rest, 0).kind != Or
    ensures ParseAltBody(PrintAlt(a) + rest, top, fl) == Lift(AltAst(a), rest)
    decreases a, 1
  {
    var after := PrintAlts(a.rest) + rest;
    assert PrintAlt(a) + rest == PrintSeq(a.first) + after;
    AltsPeek(a.rest, rest, top, fl);
    SeqRoundTrip(a.first, after, top, fl);
    match SeqAst(a.first)
    case Failure(_) =>
    case Success(f) =>
      AltsRoundTrip(f, a.rest, rest, top, fl);
  }

  /** A printed alternative list that does not begin with an empty sequence followed by `|` does not begin with `|`. */
  lemma {:induction false} AltPeek(a: AltSyn, rest: seq<Token>, top: bool, fl: Flavor)
    requires ValidAlt(a, fl)
    requires |a.first.items| > 0 || |a.rest| == 0
    requires SeqEnds(rest, top, fl) && Peek(rest, 0).kind != Or
    ensures Peek(PrintAlt(a) + rest, 0).kind != Or
  {
    AltsPeek(a.rest, rest, top, fl);
    assert PrintAlt(a) + rest == PrintItems(a.first.items) + (PrintAlts(a.rest) + rest);
    ItemsPeek(a.first.items, PrintAlts(a.rest) + rest, fl);
  }

  /**
   * An alternative list, printed (after a leading `|` when `lead`), is read back as its tree. At
   * top level without the leading `|`, the body must not itself begin with `|`.
   */
  lemma {:induction false} AltRoundTrip(a: AltSyn, lead: bool, rest: seq<Token>, top: bool, fl: Flavor)
    requires ValidAlt(a, fl)
    requires lead ==> top
    requires top && !lead ==> |a.first.items| > 0 || |a.rest| == 0
    requires SeqEnds(rest, top, fl) && Peek(rest, 0).kind != Or
    ensures ParseAlt((if lead then [Token(Or, "|")] else []) + PrintAlt(a) + rest, top, fl) == Lift(AltAst(a), rest)
  {
    var body := PrintAlt(a) + rest;
    AltBodyRoundTrip(a, rest, top, fl);
    if lead {
      var ts := [Token(Or, "|")] + body;
      assert (if lead then [Token(Or, "|")] else []) + PrintAlt(a) + rest == ts;
      assert ts[1..] == body;
    } else {
      assert (if lead then [Token(Or, "|")] else []) + PrintAlt(a) + rest == body;
      if top {
        AltPeek(a, rest, top, fl);
      }
    }
  }

  /** The start of the next rule, or the end of the input. */
  predicate NextRuleOrEnd(rest: seq<Token>)
  {
    Peek(rest, 0).kind == End || (Peek(rest, 0).kind == Name && Peek(rest, 1).kind == Assign)
  }

  /** What `ParseRuleDefinition` does once the alternatives are read: skip an optional `;`. */
  function FinishRule(name: string, r: Result<(Ast, seq<Token>)>): Result<((string, Ast), seq<Token>)>
  {
    match r
    case Failure(e) => Failure(e)
    case Success((a, ts)) => Success(((name, a), if Peek(ts, 0).kind == Semicolon then ts[1..] else ts))
  }

  /** A name and `=` are taken, and the rest is read as top-level alternatives. */
  lemma {:induction false} RuleHead(name: string, body: seq<Token>, fl: Flavor)
    ensures ParseRuleDefinition([Token(Name, name), Token(Assign, "=")] + body, fl) ==
              FinishRule(name, ParseAlt(body, true, fl))
  {
    var ts := [Token(Name, name), Token(Assign, "=")] + body;
    assert ts[1..][1..] == body;
  }

  /** After the alternatives, an optional `;` is skipped when the next rule or the end follows it. */
  lemma {:induction false} RuleTail(name: string, x: Result<Ast>, semicolon: bool, rest: seq<Token>)
    requires NextRuleOrEnd(rest)
    ensures FinishRule(name, Lift(x, (if semicolon then [Token(Semicolon, ";")] else []) + rest)) ==
              LiftRule(name, x, rest)
  {
    if semicolon {
      assert ([Token(Semicolon, ";")] + rest)[1..] == rest;
    } else {
      assert [] + rest == rest;
    }
  }

  lemma {:induction false} PrintRuleSplit(r: RuleSyn, rest: seq<Token>)
    ensures PrintRule(r) + rest ==
              [Token(Name, r.name), Token(Assign, "=")]
              + ((if r.leadingOr then [Token(Or, "|")] else []) + PrintAlt(r.body)
                 + ((if r.semicolon then [Token(Semicolon, ";")] else []) + rest))
  {
  }

  /** A rule, printed, is read back as its name and tree when the next rule or the end follows. */
  lemma {:induction false} RuleRoundTrip(r: RuleSyn, rest: seq<Token>, fl: Flavor)
    requires ValidRule(r, fl)
    requires NextRuleOrEnd(rest)
    ensures ParseRuleDefinition(PrintRule(r) + rest, fl) ==
              LiftRule(r.name, RuleAst(r), rest)
  {
    var after := (if r.semicolon then [Token(Semicolon, ";")] else []) + rest;
    var body := (if r.leadingOr then [Token(Or, "|")] else []) + PrintAlt(r.body) + after;
    PrintRuleSplit(r, rest);
    RuleHead(r.name, body, fl);
    AltRoundTrip(r.body, r.leadingOr, after, true, fl);
    RuleTail(r.name, AltAst(r.body), r.semicolon, rest);
  }

  lemma {:induction false} PrintRuleStarts(r: RuleSyn, rest: seq<Token>)
    ensures NextRuleOrEnd(PrintRule(r) + rest)
    ensures Peek(PrintRule(r) + rest, 0) == Token(Name, r.name)
  {
  }

  /** Printed rules are read back one by one into the grammar being built. */
  lemma {:induction false} RulesRoundTrip(rules: seq<RuleSyn>, fl: Flavor, acc: map<string, Ast>, start: Option<string>)
    requires ValidRules(rules, fl)
    ensures ParseRules(PrintRules(rules), fl, acc, start) == ToGrammar(rules, acc, start)
    decreases |rules|
  {
    if |rules| > 0 {
      var after := PrintRules(rules[1..]);
      if |rules[1..]| > 0 {
        PrintRuleStarts(rules[1..][0], PrintRules(rules[1..][1..]));
      }
      PrintRuleStarts(rules[0], after);
      RuleRoundTrip(rules[0], after, fl);
      match RuleAst(rules[0])
      case Failure(_) =>
      case Success(a) =>
        var name := rules[0].name;
        if name !in acc {
          RulesRoundTrip(rules[1..], fl, acc[name := a], if start.None? then Some(name) else start);
        }
    }
  }

  /**
   * Parsing a printed grammar gives the grammar its rules denote: the first rule is the start rule,
   * sequences and alternatives fold left, the postfix operators build the repetitions, and a
   * repeated rule name or a bad bound raises the same exception the parser raises.
   */
  lemma {:induction false} ParsePrinted(rules: seq<RuleSyn>, fl: Flavor)
    requires ValidRules(rules, fl)
    ensures Parse(PrintRules(rules), fl) == ToGrammar(rules, map[], None)
  {
    RulesRoundTrip(rules, fl, map[], None);
  }
}
