/**
 * The token values produced by `LDRLexer`.  Matching the input against the
 * lexer's patterns is not modelled: a statement reaches the parser as a
 * sequence of these tokens.  The two value conversions the lexer performs
 * are modelled: `remove_quotes` for STRING and `int(...)` for NUMBER.
 */
module Lexer {
  import opened Wrappers
  import opened Numbers
  import opened Tokens

  /** The token kinds of `LDRLexer.tokens`, each with the value the lexer gives it. */
  datatype Tok =
    | ID(name: string)
    | ASSIGN(text: string)
    | PRINT(text: string)
    | PRINTLOC(text: string)
    | NUMBER(number: int)
    | STRING(str: string)
    | BLOCK(text: string)

  predicate IsQuote(c: char)
  {
    c == '"' || c == '\''
  }

  /**
   * `remove_quotes`: text starting with a quote loses its first and last
   * character (Python's `text[1:-1]`, which is empty for a lone quote);
   * other text is returned as it is.
   */
  function RemoveQuotes(text: string): (r: string)
    ensures r == text <==> text == [] || !IsQuote(text[0])
    ensures |text| >= 2 && IsQuote(text[0]) ==> text == [text[0]] + r + [text[|text| - 1]]
    ensures |text| == 1 && IsQuote(text[0]) ==> r == []
    ensures |r| <= |text|
  {
    if text != [] && IsQuote(text[0]) then
      (if |text| >= 2 then text[1..|text| - 1] else [])
    else text
  }

  /** What the STRING rule matches (a quoted run) loses exactly its quotes. */
  lemma RemoveQuotesQuoted(q: char, s: string)
    requires IsQuote(q)
    ensures RemoveQuotes([q] + s + [q]) == s
  {
    var t := [q] + s + [q];
    assert t[1..|t| - 1] == s;
  }

  /** The value of the NUMBER rule's `\d+` text, as `int(text)` gives it. */
  function NumberValue(text: string): (n: nat)
    requires text != [] && forall i :: 0 <= i < |text| ==> IsDigit(text[i])
    ensures text[0] != '0' || text == "0" ==> NatToString(n) == text
  {
    if text[0] != '0' || text == "0" then
      NatToStringParse(text);
      ParseNat(text)
    else ParseNat(text)
  }

  /** Leading zeros do not change the value: `int("007") == 7`. */
  lemma NumberValueLeadingZero(t: string)
    requires t != [] && forall i :: 0 <= i < |t| ==> IsDigit(t[i])
    ensures NumberValue(['0'] + t) == NumberValue(t)
  {
    ParseNatLeadingZero(t);
  }

  /** The text of a natural number lexes back to that number. */
  lemma NumberValueOfText(n: nat)
    ensures NumberValue(NatToString(n)) == n
  {
    ParseNatToString(n);
  }

  /** The four patterns `LDRLexer.__init__` installs. */
  datatype Patterns = Patterns(printPat: string, printLocPat: string, assignPat: string, idPat: string)

  /** `tokens[fam][name].regex_list()`, or None where the lookup raises KeyError. */
  function PatternOf(reg: Registry, fam: string, name: string): (r: Option<string>)
    ensures r.Some? <==> fam in reg && Find(reg[fam], name).Some?
    ensures r.Some? ==> r.value == Alternation(Find(reg[fam], name).value)
  {
    if fam !in reg then None
    else match Find(reg[fam], name)
      case None => None
      case Some(values) => Some(Alternation(values))
  }

  /** The pattern of a token without values: an empty group, which matches the empty input. */
  const EmptyGroup: string := "()"

  /**
   * Building the lexer: the patterns of PRINT, PRINTLOC, ASSIGN and ID,
   * taken from the token registry.  None when one of the four tokens is
   * missing (KeyError), or when one has no values, since the lexer builder
   * refuses a token pattern that matches the empty input.
   */
  function LexerPatterns(reg: Registry): (r: Option<Patterns>)
  {
    match (PatternOf(reg, "tokens", "print"), PatternOf(reg, "tokens", "print_position"),
           PatternOf(reg, "tokens", "assignment"), PatternOf(reg, "variables", "ids"))
    case (Some(p), Some(l), Some(a), Some(i)) =>
      if p == EmptyGroup || l == EmptyGroup || a == EmptyGroup || i == EmptyGroup then None
      else Some(Patterns(p, l, a, i))
    case _ => None
  }

  /**
   * After a completed load of a configuration that defines the four tokens,
   * the lexer is built exactly when each of them has a value, and then each
   * pattern is the alternation of that token's normalised values.
   */
  lemma LexerPatternsLoaded(config: Config, vp: seq<string>, vl: seq<string>, va: seq<string>, vi: seq<string>)
    requires Load(config).1 && "tokens" in config && "variables" in config
    requires Defines(config["tokens"], "print", vp)
    requires Defines(config["tokens"], "print_position", vl)
    requires Defines(config["tokens"], "assignment", va)
    requires Defines(config["variables"], "ids", vi)
    ensures LexerPatterns(Load(config).0) ==
              if vp == [] || vl == [] || va == [] || vi == [] then None
              else Some(Patterns(Alternation(vp), Alternation(vl), Alternation(va), Alternation(vi)))
  {
    LoadedFind(config, "tokens", "print", vp);
    LoadedFind(config, "tokens", "print_position", vl);
    LoadedFind(config, "tokens", "assignment", va);
    LoadedFind(config, "variables", "ids", vi);
    DefinesNormalised(config["tokens"], "print", vp);
    DefinesNormalised(config["tokens"], "print_position", vl);
    DefinesNormalised(config["tokens"], "assignment", va);
    DefinesNormalised(config["variables"], "ids", vi);
    AlternationEmpty(vp);
    AlternationEmpty(vl);
    AlternationEmpty(va);
    AlternationEmpty(vi);
  }

  /** A configuration without the `tokens` family leaves the lexer unbuildable. */
  lemma LexerPatternsWithoutTokens(config: Config)
    requires "tokens" !in config
    ensures LexerPatterns(Load(config).0).None?
  {
    LoadFromMissing(EmptyRegistry, config, 0, "tokens");
  }

  /** Without a loaded "print" token the lexer cannot be built. */
  lemma LexerPatternsMissing(reg: Registry)
    requires "tokens" !in reg || Find(reg["tokens"], "print").None?
    ensures LexerPatterns(reg).None?
  {
  }
}
