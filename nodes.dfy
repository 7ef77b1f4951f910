// The typing nodes of the syntax tree: each operation node keeps the
// signatures (output first, then one domain per operand) that still fit its
// children; Validate filters them, reports a node left with none, pushes the
// operand types of a node left with one down to its children, and validates
// the children.
//
// Two implementations exist: the single SyntaxNode class, where a parent
// fixing an operation child's type also narrows that child's signatures, and
// the class hierarchy (LiteralNode, ConstantNode, ArgumentNode,
// OperationNode), where that call does nothing on an operation node. The
// Version parameter selects one.
module SyntaxNodes {
  import opened Wrappers
  import opened Domains
  import opened Errors
  import opened Keywords
  import opened TypizationHandler

  type Signature = seq<ValueDomain>
  type TypeFilter = seq<Option<ValueDomain>>

  datatype Version = SingleClass | Hierarchy

  datatype Node =
    | LiteralNode(keyword: Keyword, literalType: Option<ValueDomain>)
    | ConstantNode(keyword: Keyword, domain: ValueDomain)
    | ArgumentNode(keyword: Keyword)
    | OperationNode(keyword: Keyword, signatures: seq<Signature>, children: seq<Node>)

  // ---------------------------------------------------------------------
  // Factories
  // ---------------------------------------------------------------------

  /** The hierarchy's literal: a value that is not 0 or 1 is a Double; 0 and 1 may be either domain. */
  function MakeLiteralNode(k: Keyword, value: Num): (n: Node)
    ensures n.LiteralNode? && n.keyword == k
    ensures n.literalType != Some(Boolean)
    ensures n.literalType == None <==> value == Finite(0.0) || value == Finite(1.0)
  {
    LiteralNode(k, if CheckIfValueBelongsToType(value, Boolean) then None else Some(Double))
  }

  /** The single class's literal: the signature [Double], plus [Boolean] for 0 and 1. */
  function SingleClassLiteralSignatures(value: Num): seq<Signature>
  {
    if value != Finite(0.0) && value != Finite(1.0) then [[Double]] else [[Double], [Boolean]]
  }

  function FunctionNode(k: Keyword, signature: Signature, children: seq<Node>): (n: Node)
    ensures n.OperationNode? && |n.signatures| == 1 && n.signatures[0] == signature
  {
    OperationNode(k, [signature], children)
  }

  // ---------------------------------------------------------------------
  // Signatures
  // ---------------------------------------------------------------------

  /** A signature fits a filter when it matches every position the filter fixes. */
  predicate Fits(s: Signature, filter: TypeFilter)
    requires |s| <= |filter|
  {
    forall j | 0 <= j < |s| :: filter[j].None? || filter[j] == Some(s[j])
  }

  predicate Bounded(sigs: seq<Signature>, filter: TypeFilter)
  {
    forall i | 0 <= i < |sigs| :: |sigs[i]| <= |filter|
  }

  /** FilterPossibleSignatures: the signatures that fit, in their order. */
  function Filter(sigs: seq<Signature>, filter: TypeFilter): (r: seq<Signature>)
    requires Bounded(sigs, filter)
    ensures |r| <= |sigs|
    ensures forall i | 0 <= i < |r| :: r[i] in sigs
  {
    if sigs == [] then []
    else
      var last := sigs[|sigs| - 1];
      Filter(sigs[..|sigs| - 1], filter) + (if Fits(last, filter) then [last] else [])
  }

  /** The filter keeps exactly the signatures that fit. */
  lemma {:induction false} FilterKeepsExactlyTheFitting(sigs: seq<Signature>, filter: TypeFilter)
    requires Bounded(sigs, filter)
    ensures forall s :: s in Filter(sigs, filter) <==> s in sigs && |s| <= |filter| && Fits(s, filter)
  {
    if sigs != [] {
      var front := sigs[..|sigs| - 1];
      FilterKeepsExactlyTheFitting(front, filter);
      assert sigs == front + [sigs[|sigs| - 1]];
    }
  }

  /** A list whose every signature fits is kept whole. */
  lemma {:induction false} FittingAreKept(sigs: seq<Signature>, filter: TypeFilter)
    requires Bounded(sigs, filter) && forall i | 0 <= i < |sigs| :: Fits(sigs[i], filter)
    ensures Filter(sigs, filter) == sigs
  {
    if sigs != [] {
      FittingAreKept(sigs[..|sigs| - 1], filter);
    }
  }

  /** A list none of whose signatures fits is filtered to nothing. */
  lemma {:induction false} NoneFitting(sigs: seq<Signature>, filter: TypeFilter)
    requires Bounded(sigs, filter) && forall i | 0 <= i < |sigs| :: !Fits(sigs[i], filter)
    ensures Filter(sigs, filter) == []
  {
    if sigs != [] {
      NoneFitting(sigs[..|sigs| - 1], filter);
    }
  }

  /** Filtering twice with the same filter changes nothing more. */
  lemma FilterIsIdempotent(sigs: seq<Signature>, filter: TypeFilter)
    requires Bounded(sigs, filter)
    ensures Bounded(Filter(sigs, filter), filter)
    ensures Filter(Filter(sigs, filter), filter) == Filter(sigs, filter)
  {
    FilterKeepsExactlyTheFitting(sigs, filter);
    var r := Filter(sigs, filter);
    assert forall i | 0 <= i < |r| :: r[i] in r;
    FittingAreKept(r, filter);
  }

  /** A filter that fixes nothing keeps every signature. */
  lemma OpenFilterKeepsAll(sigs: seq<Signature>, filter: TypeFilter)
    requires Bounded(sigs, filter) && forall j | 0 <= j < |filter| :: filter[j].None?
    ensures Filter(sigs, filter) == sigs
  {
    FittingAreKept(sigs, filter);
  }

  /** The filter Validate builds: the output position open, then the children's current types. */
  function ChildFilter(childTypes: seq<Option<ValueDomain>>): TypeFilter
  {
    [None] + childTypes
  }

  /** The filter the single class's SetOutputType builds: the output position fixed, the rest open. */
  function OutputFilter(t: ValueDomain, length: nat): TypeFilter
  {
    [Some(t)] + seq(if length == 0 then 0 else length - 1, _ => None)
  }

  /** A signature fits the output filter exactly when its output is the fixed domain. */
  lemma FitsOutputFilter(s: Signature, t: ValueDomain, length: nat)
    requires 1 <= |s| <= length
    ensures |s| <= |OutputFilter(t, length)|
    ensures Fits(s, OutputFilter(t, length)) <==> s[0] == t
  {
    var filter := OutputFilter(t, length);
    assert filter[0] == Some(t);
    assert forall j | 1 <= j < |filter| :: filter[j].None?;
  }

  /**
   * GetOutputType over a signature list: the output the first signature
   * names when every signature names it, else unresolved.
   */
  function CommonOutput(sigs: seq<Signature>): Option<ValueDomain>
    requires sigs != [] && forall i | 0 <= i < |sigs| :: sigs[i] != []
  {
    if forall i | 0 <= i < |sigs| :: sigs[i][0] == sigs[0][0] then Some(sigs[0][0]) else None
  }

  /** Both implementations give a literal and a constant the same output type. */
  lemma ValueNodesAgree(k: Keyword, value: Num, t: ValueDomain)
    ensures CommonOutput(SingleClassLiteralSignatures(value)) == MakeLiteralNode(k, value).literalType
    ensures CommonOutput([[t]]) == Some(t)
  {
    if value == Finite(0.0) || value == Finite(1.0) {
      assert SingleClassLiteralSignatures(value)[1][0] != SingleClassLiteralSignatures(value)[0][0];
    }
  }

  // ---------------------------------------------------------------------
  // Shape of a tree
  // ---------------------------------------------------------------------

  function Size(n: Node): (s: nat)
    ensures s >= 1
    decreases n
  {
    if n.OperationNode? then 1 + SizeAll(n.children) else 1
  }

  function SizeAll(cs: seq<Node>): nat
    decreases cs
  {
    if cs == [] then 0 else SizeAll(cs[..|cs| - 1]) + Size(cs[|cs| - 1])
  }

  lemma {:induction false} SizeOfChild(cs: seq<Node>, i: nat)
    requires i < |cs|
    ensures Size(cs[i]) <= SizeAll(cs)
    decreases |cs|
  {
    if i < |cs| - 1 {
      SizeOfChild(cs[..|cs| - 1], i);
    }
  }

  lemma SizeAllAppend(cs: seq<Node>, c: Node)
    ensures SizeAll(cs + [c]) == SizeAll(cs) + Size(c)
  {
    assert (cs + [c])[..|cs|] == cs;
  }

  /** The names of the argument nodes of a tree. */
  function Arguments(n: Node): set<string>
    decreases n
  {
    match n
    case ArgumentNode(k) => {k.word}
    case OperationNode(_, _, cs) => ArgumentsAll(cs)
    case _ => {}
  }

  function ArgumentsAll(cs: seq<Node>): set<string>
    decreases cs
  {
    if cs == [] then {} else ArgumentsAll(cs[..|cs| - 1]) + Arguments(cs[|cs| - 1])
  }

  lemma ArgumentsAllAppend(cs: seq<Node>, c: Node)
    ensures ArgumentsAll(cs + [c]) == ArgumentsAll(cs) + Arguments(c)
  {
    assert (cs + [c])[..|cs|] == cs;
  }

  lemma {:induction false} ArgumentsOfChild(cs: seq<Node>, i: nat)
    requires i < |cs|
    ensures Arguments(cs[i]) <= ArgumentsAll(cs)
    decreases |cs|
  {
    if i < |cs| - 1 {
      ArgumentsOfChild(cs[..|cs| - 1], i);
    }
  }

  /** Every operation node below and at n has signatures, each with one domain per child plus the output. */
  predicate Full(n: Node)
    decreases n
  {
    n.OperationNode? ==>
      n.signatures != []
      && (forall i | 0 <= i < |n.signatures| :: |n.signatures[i]| == |n.children| + 1)
      && forall i | 0 <= i < |n.children| :: Full(n.children[i])
  }

  /** What Validate needs of a node: its children are full, its own list may have emptied. */
  predicate Ready(n: Node)
  {
    n.OperationNode? ==>
      (forall i | 0 <= i < |n.signatures| :: |n.signatures[i]| == |n.children| + 1)
      && forall i | 0 <= i < |n.children| :: Full(n.children[i])
  }

  // ---------------------------------------------------------------------
  // GetOutputType and SetOutputType
  // ---------------------------------------------------------------------

  /**
   * GetOutputType: the literal's type, the constant's domain, the handler's
   * entry for an argument, the common output of an operation's signatures.
   */
  function OutputType(n: Node, types: Types): (t: Option<ValueDomain>)
    requires Full(n) && Arguments(n) <= types.Keys
    ensures n.ConstantNode? ==> t == Some(n.domain)
    ensures n.LiteralNode? ==> t == n.literalType
    ensures n.ArgumentNode? ==> t == types[n.keyword.word]
    ensures n.OperationNode? && t.Some? ==> forall i | 0 <= i < |n.signatures| :: n.signatures[i][0] == t.value
  {
    match n
    case LiteralNode(_, t) => t
    case ConstantNode(_, d) => Some(d)
    case ArgumentNode(k) => types[k.word]
    case OperationNode(_, sigs, _) => CommonOutput(sigs)
  }

  /** The children's output types, in order. */
  function ChildTypes(cs: seq<Node>, types: Types): (r: seq<Option<ValueDomain>>)
    requires forall i | 0 <= i < |cs| :: Full(cs[i])
    requires ArgumentsAll(cs) <= types.Keys
    ensures |r| == |cs|
  {
    if cs == [] then []
    else
      var front := cs[..|cs| - 1];
      assert forall i | 0 <= i < |front| :: front[i] == cs[i];
      ChildTypes(front, types) + [OutputType(cs[|cs| - 1], types)]
  }

  /** The node after SetOutputType: only the single class's operation node changes, by narrowing its signatures. */
  function Narrowed(v: Version, n: Node, t: ValueDomain): (m: Node)
    requires Full(n)
    ensures Ready(m) && Size(m) == Size(n) && Arguments(m) == Arguments(n)
    ensures n.OperationNode? && m.OperationNode? ==> m.keyword == n.keyword && m.children == n.children
    ensures !n.OperationNode? || v == Hierarchy ==> m == n
    ensures v == SingleClass && n.OperationNode? ==>
      (m.OperationNode? && forall s :: s in m.signatures <==> s in n.signatures && s != [] && s[0] == t)
  {
    if v == SingleClass && n.OperationNode? then
      var filter := OutputFilter(t, |n.signatures[0]|);
      FilterKeepsExactlyTheFitting(n.signatures, filter);
      forall s | s in n.signatures ensures Fits(s, filter) <==> s[0] == t {
        FitsOutputFilter(s, t, |n.signatures[0]|);
      }
      var r := Filter(n.signatures, filter);
      assert forall i | 0 <= i < |r| :: |r[i]| == |n.children| + 1 by {
        forall i | 0 <= i < |r| ensures |r[i]| == |n.children| + 1 { assert r[i] in n.signatures; }
      }
      OperationNode(n.keyword, r, n.children)
    else n
  }

  /** The requirements after SetOutputType: an argument node adds one for its own name. */
  function Required(n: Node, t: ValueDomain, reqs: Requirements): (r: Requirements)
    requires Arguments(n) <= reqs.Keys
    ensures r.Keys == reqs.Keys
  {
    if n.ArgumentNode? then reqs[n.keyword.word := reqs[n.keyword.word] + [t]] else reqs
  }

  /** The result of SetChildrenTypes: the children after SetOutputType and the requirements. */
  datatype Pushed = Pushed(nodes: seq<Node>, reqs: Requirements)

  /** SetChildrenTypes over the children, child i getting domain ts[i]. */
  function SetChildrenTypes(v: Version, cs: seq<Node>, ts: seq<ValueDomain>, reqs: Requirements): (r: Pushed)
    requires |ts| == |cs| && (forall i | 0 <= i < |cs| :: Full(cs[i])) && ArgumentsAll(cs) <= reqs.Keys
    ensures |r.nodes| == |cs| && r.reqs.Keys == reqs.Keys
  {
    if cs == [] then Pushed([], reqs)
    else
      var k := |cs| - 1;
      ArgumentsOfChild(cs, k);
      var p := SetChildrenTypes(v, cs[..k], ts[..k], reqs);
      Pushed(p.nodes + [Narrowed(v, cs[k], ts[k])], Required(cs[k], ts[k], p.reqs))
  }

  /** Each child is narrowed on its own. */
  lemma {:induction false} SetChildrenTypesNarrows(v: Version, cs: seq<Node>, ts: seq<ValueDomain>, reqs: Requirements)
    requires |ts| == |cs| && (forall i | 0 <= i < |cs| :: Full(cs[i])) && ArgumentsAll(cs) <= reqs.Keys
    ensures forall i | 0 <= i < |cs| :: SetChildrenTypes(v, cs, ts, reqs).nodes[i] == Narrowed(v, cs[i], ts[i])
  {
    if cs != [] {
      var k := |cs| - 1;
      ArgumentsOfChild(cs, k);
      SetChildrenTypesNarrows(v, cs[..k], ts[..k], reqs);
    }
  }

  /** Narrowing keeps the sizes and the argument names of the children. */
  lemma {:induction false} SetChildrenTypesKeepsShape(v: Version, cs: seq<Node>, ts: seq<ValueDomain>, reqs: Requirements)
    requires |ts| == |cs| && (forall i | 0 <= i < |cs| :: Full(cs[i])) && ArgumentsAll(cs) <= reqs.Keys
    ensures var r := SetChildrenTypes(v, cs, ts, reqs);
      SizeAll(r.nodes) == SizeAll(cs) && ArgumentsAll(r.nodes) == ArgumentsAll(cs)
  {
    if cs != [] {
      var k := |cs| - 1;
      var front := cs[..k];
      ArgumentsOfChild(cs, k);
      SetChildrenTypesKeepsShape(v, front, ts[..k], reqs);
      var p := SetChildrenTypes(v, front, ts[..k], reqs);
      var m := Narrowed(v, cs[k], ts[k]);
      SizeAllAppend(p.nodes, m);
      ArgumentsAllAppend(p.nodes, m);
    }
  }

  lemma FullIsReady(n: Node)
    requires Full(n)
    ensures Ready(n)
  {
  }

  // ---------------------------------------------------------------------
  // Validate
  // ---------------------------------------------------------------------

  /** The error of an operation node left without a signature. */
  function NodeError(v: Version, k: Keyword): (e: Error)
    ensures e.OperatorTypizationError? || e.FunctionTypizationError? || e.InsertedMultiplicationTypizationError?
  {
    match v
    case SingleClass =>
      if k.kind == Operator then OperatorTypizationError(k.word, k.originalPosition)
      else FunctionTypizationError(k.word, k.originalPosition)
    case Hierarchy =>
      if k.kind == Operator && k.originalPosition >= 0 then OperatorTypizationError(k.word, k.originalPosition)
      else if k.kind == Name then FunctionTypizationError(k.word, k.originalPosition)
      else InsertedMultiplicationTypizationError
  }

  /** The signatures of an operation node that fit its children's current types. */
  function Possible(n: Node, types: Types): (sigs: seq<Signature>)
    requires n.OperationNode? && Ready(n) && ArgumentsAll(n.children) <= types.Keys
    ensures forall i | 0 <= i < |sigs| :: sigs[i] in n.signatures && |sigs[i]| == |n.children| + 1
  {
    var filter := ChildFilter(ChildTypes(n.children, types));
    FilterKeepsExactlyTheFitting(n.signatures, filter);
    Filter(n.signatures, filter)
  }

  /** The children after the node's types are pushed down: only when exactly one signature is left. */
  function Push(v: Version, cs: seq<Node>, sigs: seq<Signature>, reqs: Requirements): (r: Pushed)
    requires (forall i | 0 <= i < |cs| :: Full(cs[i])) && ArgumentsAll(cs) <= reqs.Keys
    requires forall i | 0 <= i < |sigs| :: |sigs[i]| == |cs| + 1
    ensures |r.nodes| == |cs| && r.reqs.Keys == reqs.Keys
    ensures (forall i | 0 <= i < |cs| :: Ready(r.nodes[i]))
    ensures SizeAll(r.nodes) == SizeAll(cs) && ArgumentsAll(r.nodes) == ArgumentsAll(cs)
  {
    if |sigs| == 1 then
      SetChildrenTypesNarrows(v, cs, sigs[0][1..], reqs);
      SetChildrenTypesKeepsShape(v, cs, sigs[0][1..], reqs);
      SetChildrenTypes(v, cs, sigs[0][1..], reqs)
    else
      assert forall i | 0 <= i < |cs| :: Ready(cs[i]) by {
        forall i | 0 <= i < |cs| ensures Ready(cs[i]) { FullIsReady(cs[i]); }
      }
      Pushed(cs, reqs)
  }

  /** The node after Validate, the requirements, and the errors of the node and then of its children. */
  datatype Validated = Validated(node: Node, reqs: Requirements, errors: seq<Error>)

  datatype ValidatedAll = ValidatedAll(nodes: seq<Node>, reqs: Requirements, errors: seq<Error>)

  function Validate(v: Version, n: Node, types: Types, reqs: Requirements): (r: Validated)
    requires Ready(n) && Arguments(n) <= types.Keys && Arguments(n) <= reqs.Keys
    ensures r.reqs.Keys == reqs.Keys && Arguments(r.node) == Arguments(n)
    ensures r.errors == [] ==> Full(r.node)
    decreases Size(n), 1
  {
    if !n.OperationNode? then Validated(n, reqs, [])
    else
      var sigs := Possible(n, types);
      var pushed := Push(v, n.children, sigs, reqs);
      var c := ValidateChildren(v, pushed.nodes, types, pushed.reqs);
      Validated(OperationNode(n.keyword, sigs, c.nodes), c.reqs, (if sigs == [] then [NodeError(v, n.keyword)] else []) + c.errors)
  }

  /** ValidateChildren: each child in turn, collecting the errors of those that fail. */
  function ValidateChildren(v: Version, cs: seq<Node>, types: Types, reqs: Requirements): (r: ValidatedAll)
    requires (forall i | 0 <= i < |cs| :: Ready(cs[i])) && ArgumentsAll(cs) <= types.Keys && ArgumentsAll(cs) <= reqs.Keys
    ensures |r.nodes| == |cs| && r.reqs.Keys == reqs.Keys && ArgumentsAll(r.nodes) == ArgumentsAll(cs)
    ensures r.errors == [] ==> forall i | 0 <= i < |cs| :: Full(r.nodes[i])
    decreases SizeAll(cs), 2
  {
    if cs == [] then ValidatedAll([], reqs, [])
    else
      var k := |cs| - 1;
      var front := cs[..k];
      assert forall i | 0 <= i < k :: front[i] == cs[i];
      ArgumentsOfChild(cs, k);
      var p := ValidateChildren(v, front, types, reqs);
      var c := Validate(v, cs[k], types, p.reqs);
      ValidatedAppend(cs, p, c);
      ValidatedAll(p.nodes + [c.node], c.reqs, p.errors + c.errors)
  }

  /** The bookkeeping of one step of ValidateChildren: the arguments are kept, and without errors every child is full. */
  lemma ValidatedAppend(cs: seq<Node>, p: ValidatedAll, c: Validated)
    requires cs != [] && |p.nodes| == |cs| - 1
    requires ArgumentsAll(p.nodes) == ArgumentsAll(cs[..|cs| - 1]) && Arguments(c.node) == Arguments(cs[|cs| - 1])
    requires p.errors == [] ==> forall i | 0 <= i < |p.nodes| :: Full(p.nodes[i])
    requires c.errors == [] ==> Full(c.node)
    ensures ArgumentsAll(p.nodes + [c.node]) == ArgumentsAll(cs)
    ensures p.errors + c.errors == [] ==> forall i | 0 <= i < |cs| :: Full((p.nodes + [c.node])[i])
  {
    ArgumentsAllAppend(p.nodes, c.node);
  }

  // ---------------------------------------------------------------------
  // What Validate does to the handler and to the tree
  // ---------------------------------------------------------------------

  /** Requirements are only ever appended to, never removed. */
  predicate Grows(reqs: Requirements, reqs': Requirements)
  {
    reqs'.Keys == reqs.Keys && forall x | x in reqs :: reqs[x] <= reqs'[x]
  }

  predicate TypizationErrors(errors: seq<Error>)
  {
    forall e | e in errors :: e.OperatorTypizationError? || e.FunctionTypizationError? || e.InsertedMultiplicationTypizationError?
  }

  lemma {:induction false} SetChildrenTypesGrows(v: Version, cs: seq<Node>, ts: seq<ValueDomain>, reqs: Requirements)
    requires |ts| == |cs| && (forall i | 0 <= i < |cs| :: Full(cs[i])) && ArgumentsAll(cs) <= reqs.Keys
    ensures Grows(reqs, SetChildrenTypes(v, cs, ts, reqs).reqs)
  {
    if cs != [] {
      var k := |cs| - 1;
      ArgumentsOfChild(cs, k);
      SetChildrenTypesGrows(v, cs[..k], ts[..k], reqs);
    }
  }

  /**
   * Validate only appends requirements and reports only typization errors;
   * a validated operation node keeps its keyword and its children count,
   * and its signatures are among those it had.
   */
  lemma {:induction false} ValidateFacts(v: Version, n: Node, types: Types, reqs: Requirements)
    requires Ready(n) && Arguments(n) <= types.Keys && Arguments(n) <= reqs.Keys
    ensures var r := Validate(v, n, types, reqs);
      Grows(reqs, r.reqs) && TypizationErrors(r.errors)
      && (!n.OperationNode? ==> r.node == n && r.errors == [])
      && (n.OperationNode? ==>
            r.node.OperationNode? && r.node.keyword == n.keyword && |r.node.children| == |n.children|
            && forall s | s in r.node.signatures :: s in n.signatures)
    decreases Size(n), 1
  {
    if n.OperationNode? {
      var sigs := Possible(n, types);
      if |sigs| == 1 {
        SetChildrenTypesGrows(v, n.children, sigs[0][1..], reqs);
      }
      var pushed := Push(v, n.children, sigs, reqs);
      ValidateChildrenFacts(v, pushed.nodes, types, pushed.reqs);
    }
  }

  lemma {:induction false} ValidateChildrenFacts(v: Version, cs: seq<Node>, types: Types, reqs: Requirements)
    requires (forall i | 0 <= i < |cs| :: Ready(cs[i])) && ArgumentsAll(cs) <= types.Keys && ArgumentsAll(cs) <= reqs.Keys
    ensures var r := ValidateChildren(v, cs, types, reqs);
      Grows(reqs, r.reqs) && TypizationErrors(r.errors)
    decreases SizeAll(cs), 2
  {
    if cs != [] {
      var k := |cs| - 1;
      ArgumentsOfChild(cs, k);
      ValidateChildrenFacts(v, cs[..k], types, reqs);
      var p := ValidateChildren(v, cs[..k], types, reqs);
      ValidateFacts(v, cs[k], types, p.reqs);
    }
  }

  /** A node whose signatures all fail its children's types is the first error reported for it. */
  lemma ValidateReportsUntypableNode(v: Version, n: Node, types: Types, reqs: Requirements)
    requires n.OperationNode? && Ready(n) && Arguments(n) <= types.Keys && Arguments(n) <= reqs.Keys
    requires forall i | 0 <= i < |n.signatures| :: !Fits(n.signatures[i], ChildFilter(ChildTypes(n.children, types)))
    ensures var r := Validate(v, n, types, reqs);
      r.errors != [] && r.errors[0] == NodeError(v, n.keyword) && r.node.signatures == []
  {
    NoneFitting(n.signatures, ChildFilter(ChildTypes(n.children, types)));
  }

  // ---------------------------------------------------------------------
  // The node operations over a handler
  // ---------------------------------------------------------------------

  /** FilterPossibleSignatures: keeps, in order, the signatures that match every fixed position. */
  method FilterPossibleSignatures(sigs: seq<Signature>, filter: TypeFilter) returns (r: seq<Signature>)
    requires Bounded(sigs, filter)
    ensures r == Filter(sigs, filter)
  {
    r := [];
    for i := 0 to |sigs|
      invariant r == Filter(sigs[..i], filter)
    {
      var fits := true;
      for j := 0 to |sigs[i]|
        invariant fits <==> forall l | 0 <= l < j :: filter[l].None? || filter[l] == Some(sigs[i][l])
      {
        if filter[j].Some? && filter[j] != Some(sigs[i][j]) {
          fits := false;
        }
      }
      assert sigs[..i + 1][..i] == sigs[..i];
      if fits {
        r := r + [sigs[i]];
      }
    }
    assert sigs[..|sigs|] == sigs;
  }

  /** The output type shared by every signature, the loop stopping at the first that differs. */
  method GetCommonOutput(sigs: seq<Signature>) returns (t: Option<ValueDomain>)
    requires sigs != [] && forall i | 0 <= i < |sigs| :: sigs[i] != []
    ensures t == CommonOutput(sigs)
  {
    t := Some(sigs[0][0]);
    var i := 1;
    while i < |sigs|
      invariant 1 <= i <= |sigs|
      invariant forall l | 0 <= l < i :: sigs[l][0] == sigs[0][0]
      invariant t == Some(sigs[0][0])
    {
      if sigs[i][0] != t.value {
        t := None;
        break;
      }
      i := i + 1;
    }
  }

  method GetOutputType(n: Node, h: ArgumentTypizationHandler) returns (t: Option<ValueDomain>)
    requires Full(n) && Arguments(n) <= h.types.Keys
    ensures t == OutputType(n, h.types)
  {
    match n
    case LiteralNode(_, lt) => t := lt;
    case ConstantNode(_, d) => t := Some(d);
    case ArgumentNode(k) => t := h.GetArgumentType(k.word);
    case OperationNode(_, sigs, _) => t := GetCommonOutput(sigs);
  }

  lemma {:induction false} ArgumentsOfPrefix(cs: seq<Node>, i: nat)
    requires i <= |cs|
    ensures ArgumentsAll(cs[..i]) <= ArgumentsAll(cs)
    decreases |cs| - i
  {
    if i < |cs| {
      ArgumentsOfPrefix(cs, i + 1);
      assert cs[..i + 1][..i] == cs[..i];
    } else {
      assert cs[..i] == cs;
    }
  }

  /** GetChildrenTypes: the output type of each child, in order. */
  method GetChildrenTypes(cs: seq<Node>, h: ArgumentTypizationHandler) returns (ts: seq<Option<ValueDomain>>)
    requires (forall i | 0 <= i < |cs| :: Full(cs[i])) && ArgumentsAll(cs) <= h.types.Keys
    ensures ts == ChildTypes(cs, h.types)
  {
    ts := [];
    for i := 0 to |cs|
      invariant ArgumentsAll(cs[..i]) <= h.types.Keys
      invariant ts == ChildTypes(cs[..i], h.types)
    {
      ArgumentsOfPrefix(cs, i + 1);
      ArgumentsOfChild(cs[..i + 1], i);
      assert cs[..i + 1][..i] == cs[..i];
      var t := GetOutputType(cs[i], h);
      ts := ts + [t];
    }
    assert cs[..|cs|] == cs;
  }

  /**
   * SetOutputType: an argument records the requirement with the handler; the
   * single class's operation node narrows its signatures to that output.
   */
  method SetOutputType(v: Version, n: Node, t: ValueDomain, h: ArgumentTypizationHandler) returns (m: Node)
    requires h.Valid() && Full(n) && Arguments(n) <= h.types.Keys && Arguments(n) <= h.requirements.Keys
    modifies h
    ensures m == Narrowed(v, n, t)
    ensures h.requirements == Required(n, t, old(h.requirements)) && h.types == old(h.types) && h.Valid()
  {
    m := n;
    if n.ArgumentNode? {
      h.RequireArgumentType(n.keyword.word, t);
    } else if v == SingleClass && n.OperationNode? {
      var filter := OutputFilter(t, |n.signatures[0]|);
      var sigs := FilterPossibleSignatures(n.signatures, filter);
      m := OperationNode(n.keyword, sigs, n.children);
    }
  }

  /** SetChildrenTypes: pushes the domain ts[i] down to child i. */
  method SetChildrenTypesOf(v: Version, cs: seq<Node>, ts: seq<ValueDomain>, h: ArgumentTypizationHandler) returns (nodes: seq<Node>)
    requires h.Valid() && |ts| == |cs| && (forall i | 0 <= i < |cs| :: Full(cs[i]))
    requires ArgumentsAll(cs) <= h.types.Keys && ArgumentsAll(cs) <= h.requirements.Keys
    modifies h
    ensures Pushed(nodes, h.requirements) == SetChildrenTypes(v, cs, ts, old(h.requirements))
    ensures h.types == old(h.types) && h.Valid()
  {
    nodes := [];
    for i := 0 to |cs|
      invariant h.types == old(h.types) && h.Valid()
      invariant ArgumentsAll(cs[..i]) <= h.types.Keys
      invariant Pushed(nodes, h.requirements) == SetChildrenTypes(v, cs[..i], ts[..i], old(h.requirements))
    {
      SetChildrenTypesStep(v, cs, ts, old(h.requirements), i);
      var m := SetOutputType(v, cs[i], ts[i], h);
      nodes := nodes + [m];
    }
    assert cs[..|cs|] == cs && ts[..|ts|] == ts;
  }

  /** SetChildrenTypes over one more child: the first ones as before, then the next child narrowed. */
  lemma SetChildrenTypesStep(v: Version, cs: seq<Node>, ts: seq<ValueDomain>, reqs: Requirements, i: nat)
    requires i < |cs| == |ts| && (forall j | 0 <= j < |cs| :: Full(cs[j])) && ArgumentsAll(cs) <= reqs.Keys
    ensures Arguments(cs[i]) <= ArgumentsAll(cs) && ArgumentsAll(cs[..i]) <= reqs.Keys && ArgumentsAll(cs[..i + 1]) <= ArgumentsAll(cs)
    ensures var p := SetChildrenTypes(v, cs[..i], ts[..i], reqs);
      SetChildrenTypes(v, cs[..i + 1], ts[..i + 1], reqs)
        == Pushed(p.nodes + [Narrowed(v, cs[i], ts[i])], Required(cs[i], ts[i], p.reqs))
  {
    ArgumentsOfPrefix(cs, i);
    ArgumentsOfPrefix(cs, i + 1);
    ArgumentsOfChild(cs, i);
    assert cs[..i + 1][..i] == cs[..i] && ts[..i + 1][..i] == ts[..i];
    assert cs[..i + 1][i] == cs[i] && ts[..i + 1][i] == ts[i];
  }

  /** Validate on a node, recording requirements with the handler; ok when nothing was reported. */
  method ValidateNode(v: Version, n: Node, h: ArgumentTypizationHandler) returns (ok: bool, m: Node, errors: seq<Error>)
    requires h.Valid() && Ready(n) && Arguments(n) <= h.types.Keys && Arguments(n) <= h.requirements.Keys
    modifies h
    ensures h.types == old(h.types) && h.Valid()
    ensures Validated(m, h.requirements, errors) == Validate(v, n, h.types, old(h.requirements))
    ensures ok <==> errors == []
    decreases Size(n), 1
  {
    if !n.OperationNode? {
      return true, n, [];
    }
    var childTypes := GetChildrenTypes(n.children, h);
    var sigs := FilterPossibleSignatures(n.signatures, ChildFilter(childTypes));
    assert sigs == Possible(n, h.types);
    errors := if |sigs| == 0 then [NodeError(v, n.keyword)] else [];
    var children := n.children;
    if |sigs| == 1 {
      children := SetChildrenTypesOf(v, n.children, sigs[0][1..], h);
    }
    ghost var pushed := Push(v, n.children, sigs, old(h.requirements));
    assert children == pushed.nodes && h.requirements == pushed.reqs;
    var more;
    children, more := ValidateChildrenOf(v, children, h);
    errors := errors + more;
    m := OperationNode(n.keyword, sigs, children);
    ok := |errors| == 0;
  }

  /** ValidateChildren: validates every child, in order, and gathers their errors. */
  method ValidateChildrenOf(v: Version, cs: seq<Node>, h: ArgumentTypizationHandler) returns (nodes: seq<Node>, errors: seq<Error>)
    requires h.Valid() && (forall i | 0 <= i < |cs| :: Ready(cs[i]))
    requires ArgumentsAll(cs) <= h.types.Keys && ArgumentsAll(cs) <= h.requirements.Keys
    modifies h
    ensures h.types == old(h.types) && h.Valid()
    ensures ValidatedAll(nodes, h.requirements, errors) == ValidateChildren(v, cs, h.types, old(h.requirements))
    decreases SizeAll(cs), 2
  {
    nodes, errors := [], [];
    for i := 0 to |cs|
      invariant h.types == old(h.types) && h.Valid()
      invariant ArgumentsAll(cs[..i]) <= h.types.Keys
      invariant ValidatedAll(nodes, h.requirements, errors) == ValidateChildren(v, cs[..i], h.types, old(h.requirements))
    {
      ArgumentsOfPrefix(cs, i + 1);
      ArgumentsOfChild(cs[..i + 1], i);
      SizeOfChild(cs, i);
      assert cs[..i + 1][..i] == cs[..i];
      var ok, m, more := ValidateNode(v, cs[i], h);
      nodes := nodes + [m];
      errors := errors + more;
    }
    assert cs[..|cs|] == cs;
  }
}
