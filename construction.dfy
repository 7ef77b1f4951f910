// The public constructors of Expression and Function that take a string:
// they run Parser.Parse (on a fresh default parser when none is given),
// wrap whatever error it raises, and copy the parsed operation.
module Construction {
  import opened Wrappers
  import opened Errors
  import opened Naming
  import opened Expressions
  import opened SyntaxNodes
  import opened Operations
  import Functions
  import Parsing

  /**
   * The two catch clauses: every error the library raises is an
   * ArgumentException or an AggregateException, so each is wrapped with the
   * text; an exception of any other kind escapes as it is.
   */
  function Rethrown<T>(c: Parsing.Call<T>, s: string): Parsing.Call<T>
  {
    match c
    case Raised(e) => Parsing.Raised(ErrorOccuredWhileParsing(s, e))
    case _ => c
  }

  /**
   * What the constructors see of a parse: the expression exactly when the
   * parse succeeded, a wrapped error exactly when it failed, the single
   * error wrapped as it is and several inside the parse's own aggregate.
   */
  lemma RethrownParse(o: Parsing.Outcome, s: string)
    ensures Rethrown(Parsing.ParseResult(o, s), s).Returned? <==> o.Parsed?
    ensures o.Parsed? ==> Rethrown(Parsing.ParseResult(o, s), s) == Parsing.Returned(o.expression)
    ensures Rethrown(Parsing.ParseResult(o, s), s).Raised? <==> o.Failed?
    ensures o.Failed? && |o.errors| == 1 ==>
      Rethrown(Parsing.ParseResult(o, s), s) == Parsing.Raised(ErrorOccuredWhileParsing(s, o.errors[0]))
    ensures o.Failed? && |o.errors| != 1 ==>
      Rethrown(Parsing.ParseResult(o, s), s) == Parsing.Raised(ErrorOccuredWhileParsing(s, SeveralErrorsWhileParsing(s, o.errors)))
    ensures Rethrown(Parsing.ParseResult(o, s), s).Escaped? <==> o.Crashed?
  {
  }

  /** The parser the constructors use: the one given, or a fresh one over the default registry. */
  method ParserOrDefault(parser: Parsing.Parser?, version: Version) returns (p: Parsing.Parser)
    requires parser != null ==> parser.Valid()
    ensures parser != null ==> p == parser
    ensures parser == null ==> fresh(p) && fresh(p.collection) && p.version == version
    ensures parser == null ==> p.DefaultType == Domains.Double && p.EnableTypization
    ensures p.Valid()
  {
    if parser != null {
      p := parser;
    } else {
      p := new Parsing.Parser(null, version);
    }
  }

  /**
   * Expression(expressionString, parser): the parse's expression, copied
   * whole (its operation through SetSource and its formatted string), or
   * the parse's error wrapped.
   */
  method ExpressionFromString(s: string, parser: Parsing.Parser?, version: Version, compile: Node -> Source)
      returns (r: Parsing.Call<Expression>, used: Parsing.Parser)
    requires parser != null ==> parser.Valid()
    ensures parser != null ==> used == parser
    ensures parser == null ==> fresh(used) && used.version == version
    ensures used.Valid()
    ensures r == Rethrown(Parsing.ParseResult(Parsing.Processed(used.Current(), used.Reg(), compile, s), s), s)
  {
    used := ParserOrDefault(parser, version);
    var tmp := used.Parse(s, compile);
    match tmp
    case Returned(e) => r := Parsing.Returned(Expression(e.expressionString, e.op));
    case Raised(err) => r := Parsing.Raised(ErrorOccuredWhileParsing(s, err));
    case Escaped => r := Parsing.Escaped;
  }

  /**
   * Function(name, expressionString, parser): the two name guards come
   * before any parsing; then the string is parsed and its error wrapped as
   * Expression's constructor does, and the operation is copied under the name.
   */
  method FunctionFromString(name: string, s: string, parser: Parsing.Parser?, version: Version, compile: Node -> Source)
      returns (r: Parsing.Call<Functions.Function>, used: Parsing.Parser?)
    requires parser != null ==> parser.Valid()
    ensures NameGuard(name).Some? ==> r == Parsing.Raised(NameGuard(name).value) && used == null
    ensures NameGuard(name).None? ==> used != null && (parser != null ==> used == parser) && (parser == null ==> fresh(used))
    ensures used != null ==> used.Valid()
    ensures NameGuard(name).None? ==>
      var c := Rethrown(Parsing.ParseResult(Parsing.Processed(used.Current(), used.Reg(), compile, s), s), s);
      (r.Returned? <==> c.Returned?) && (r.Raised? <==> c.Raised?)
      && (r.Returned? ==> fresh(r.value) && r.value.name == name && r.value.op == c.value.op)
      && (r.Raised? ==> r.error == c.error)
  {
    var guard := NameGuard(name);
    if guard.Some? {
      return Parsing.Raised(guard.value), null;
    }
    var c, p := ExpressionFromString(s, parser, version, compile);
    used := p;
    match c
    case Returned(e) =>
      var f := new Functions.Function(name, e.op);
      r := Parsing.Returned(f);
    case Raised(err) => r := Parsing.Raised(err);
    case Escaped => r := Parsing.Escaped;
  }
}
