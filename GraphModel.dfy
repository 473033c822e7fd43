/**
 * The base semantic model of a graph (PXGraphSemanticModel): which kind of
 * graph a type is, its declared initializers, and the models inferred from a
 * type together with the PXGraph.InstanceCreated.AddHandler delegates found
 * in its declaration.
 *
 * Symbols and syntax nodes are opaque handles. The Roslyn lookups a type
 * symbol answers (IsPXGraph, IsPXGraphExtension, its instance constructors,
 * its Initialize method) are fields of TypeSymbol; the syntax walk that
 * finds the init delegates is replaced by its result, a sequence of
 * InitDelegateInfo values in the order the walk meets them.
 */
module GraphModel {
  import opened Common

  datatype GraphType = None | PXGraph | PXGraphExtension

  datatype GraphInitializerType = InstanceCtr | InitializeMethod | InstanceCreatedDelegate

  /** Opaque handle of a syntax node. */
  type NodeRef = nat
  /** Opaque handle of a method or delegate symbol. */
  type SymbolRef = nat

  datatype GraphInitializerInfo = GraphInitializerInfo(kind: GraphInitializerType, node: NodeRef, symbol: Option<SymbolRef>)

  /** A declared instance constructor: its declaration node and its symbol. */
  datatype ConstructorInfo = ConstructorInfo(node: NodeRef, symbol: SymbolRef)

  /**
   * A named type symbol with the answers of the Roslyn queries the model asks
   * about it. `initialization` is what GetGraphExtensionInitialization returns:
   * the node and symbol of the extension's Initialize method, either may be null.
   */
  datatype TypeSymbol = TypeSymbol(
    id: nat,
    isPXGraph: bool,
    isPXGraphExtension: bool,
    instanceConstructors: seq<ConstructorInfo>,
    initializationNode: Option<NodeRef>,
    initializationSymbol: Option<SymbolRef>)

  /** A found `PXGraph.InstanceCreated.AddHandler<TGraph>(delegate)` call. */
  datatype InitDelegateInfo = InitDelegateInfo(graphSymbol: TypeSymbol, delegateSymbol: Option<SymbolRef>, delegateNode: NodeRef)
  {
    /** Delegates are always registered on graphs, never on extensions. */
    function GraphType(): GraphType { PXGraph }
  }

  /** The value of a model: what the object's fields hold. */
  datatype ModelValue = ModelValue(graphType: GraphType, symbol: TypeSymbol, initializers: seq<GraphInitializerInfo>)

  // ---------------------------------------------------------------------------
  // Specification functions
  // ---------------------------------------------------------------------------

  /** The kind of graph a type is: a graph wins over an extension. */
  function GraphTypeOf(s: TypeSymbol): (t: GraphType)
  {
    if s.isPXGraph then PXGraph
    else if s.isPXGraphExtension then PXGraphExtension
    else GraphType.None
  }

  function ConstructorInitializers(ctors: seq<ConstructorInfo>): (r: seq<GraphInitializerInfo>)
    ensures |r| == |ctors|
    ensures forall i :: 0 <= i < |ctors| ==>
      r[i] == GraphInitializerInfo(InstanceCtr, ctors[i].node, Some(ctors[i].symbol))
  {
    if ctors == [] then []
    else [GraphInitializerInfo(InstanceCtr, ctors[0].node, Some(ctors[0].symbol))] + ConstructorInitializers(ctors[1..])
  }

  /** The initializers a model starts with, before any delegate is merged in. */
  function DeclaredInitializers(t: GraphType, s: TypeSymbol): seq<GraphInitializerInfo>
  {
    match t
    case PXGraph => ConstructorInitializers(s.instanceConstructors)
    case PXGraphExtension =>
      if s.initializationNode.Some? && s.initializationSymbol.Some? then
        [GraphInitializerInfo(InitializeMethod, s.initializationNode.value, s.initializationSymbol)]
      else []
    case None => []
  }

  /** The initializer a delegate contributes. */
  function DelegateInitializer(d: InitDelegateInfo): GraphInitializerInfo
  {
    GraphInitializerInfo(InstanceCreatedDelegate, d.delegateNode, d.delegateSymbol)
  }

  /** Index of the first model whose symbol is `s` (FirstOrDefault), if any. */
  function FindModel(models: seq<ModelValue>, s: TypeSymbol): (k: Option<nat>)
    ensures k.Some? ==> k.value < |models| && models[k.value].symbol == s
    ensures k.Some? ==> forall j :: 0 <= j < k.value ==> models[j].symbol != s
    ensures k.None? ==> forall j :: 0 <= j < |models| ==> models[j].symbol != s
  {
    if models == [] then Option.None
    else if models[0].symbol == s then Some(0)
    else match FindModel(models[1..], s)
      case None => Option.None
      case Some(j) => Some(j + 1)
  }

  /** One step of the delegate loop: find or create the model, then append. */
  function MergeDelegate(models: seq<ModelValue>, d: InitDelegateInfo): (r: seq<ModelValue>)
  {
    match FindModel(models, d.graphSymbol)
    case Some(k) =>
      models[k := models[k].(initializers := models[k].initializers + [DelegateInitializer(d)])]
    case None =>
      var created := ModelValue(d.GraphType(), d.graphSymbol, DeclaredInitializers(d.GraphType(), d.graphSymbol));
      models + [created.(initializers := created.initializers + [DelegateInitializer(d)])]
  }

  /** The explicit model, present only when the type is a graph or an extension. */
  function ExplicitModels(s: TypeSymbol): seq<ModelValue>
  {
    var t := GraphTypeOf(s);
    if t != GraphType.None then [ModelValue(t, s, DeclaredInitializers(t, s))] else []
  }

  /** What InferModels returns, for the delegates in the order they were found. */
  function InferredModels(s: TypeSymbol, delegates: seq<InitDelegateInfo>): seq<ModelValue>
    decreases |delegates|
  {
    if delegates == [] then ExplicitModels(s)
    else MergeDelegate(InferredModels(s, delegates[..|delegates| - 1]), delegates[|delegates| - 1])
  }

  /** The initializers that the delegates in `ds` add to the model of `s`, in order. */
  function DelegateInitializersFor(ds: seq<InitDelegateInfo>, s: TypeSymbol): seq<GraphInitializerInfo>
    decreases |ds|
  {
    if ds == [] then []
    else DelegateInitializersFor(ds[..|ds| - 1], s)
         + (if ds[|ds| - 1].graphSymbol == s then [DelegateInitializer(ds[|ds| - 1])] else [])
  }

  ghost predicate DistinctSymbols(models: seq<ModelValue>)
  {
    forall i, j :: 0 <= i < j < |models| ==> models[i].symbol != models[j].symbol
  }

  // ---------------------------------------------------------------------------
  // Properties
  // ---------------------------------------------------------------------------

  /** The graph kind: PXGraph if the type is a graph, else PXGraphExtension if an extension, else None. */
  lemma GraphTypeOfCases(s: TypeSymbol)
    ensures GraphTypeOf(s) == PXGraph <==> s.isPXGraph
    ensures GraphTypeOf(s) == PXGraphExtension <==> !s.isPXGraph && s.isPXGraphExtension
    ensures GraphTypeOf(s) == GraphType.None <==> !s.isPXGraph && !s.isPXGraphExtension
  {
  }

  /** The declared initializers by kind: all constructors for a graph, at most one Initialize for an extension, none otherwise. */
  lemma DeclaredInitializersByKind(t: GraphType, s: TypeSymbol)
    ensures t == PXGraph ==>
      |DeclaredInitializers(t, s)| == |s.instanceConstructors| &&
      forall i :: 0 <= i < |s.instanceConstructors| ==>
        DeclaredInitializers(t, s)[i] == GraphInitializerInfo(InstanceCtr, s.instanceConstructors[i].node, Some(s.instanceConstructors[i].symbol))
    ensures t == PXGraphExtension ==>
      |DeclaredInitializers(t, s)| <= 1 &&
      (|DeclaredInitializers(t, s)| == 1 <==> s.initializationNode.Some? && s.initializationSymbol.Some?) &&
      forall g :: g in DeclaredInitializers(t, s) ==> g.kind == InitializeMethod
    ensures t == GraphType.None ==> DeclaredInitializers(t, s) == []
  {
  }

  /** A delegate step adds exactly one initializer, at the end, to the model of its graph, and nothing else. */
  lemma MergeDelegateAppends(models: seq<ModelValue>, d: InitDelegateInfo)
    requires DistinctSymbols(models)
    ensures var r := MergeDelegate(models, d);
      && DistinctSymbols(r)
      && |models| <= |r| <= |models| + 1
      && (|r| == |models| + 1 <==> forall j :: 0 <= j < |models| ==> models[j].symbol != d.graphSymbol)
      && (forall j :: 0 <= j < |models| && models[j].symbol != d.graphSymbol ==> r[j] == models[j])
      && (forall j :: 0 <= j < |models| && models[j].symbol == d.graphSymbol ==>
            r[j] == models[j].(initializers := models[j].initializers + [DelegateInitializer(d)]))
      && (|r| == |models| + 1 ==>
            r[|models|] == ModelValue(PXGraph, d.graphSymbol,
                                      DeclaredInitializers(PXGraph, d.graphSymbol) + [DelegateInitializer(d)]))
  {
    var r := MergeDelegate(models, d);
    match FindModel(models, d.graphSymbol)
    case Some(k) =>
      forall i, j | 0 <= i < j < |r| ensures r[i].symbol != r[j].symbol {
        assert r[i].symbol == models[i].symbol && r[j].symbol == models[j].symbol;
      }
    case None =>
  }

  /** Models never disappear and each delegate adds at most one: pairwise distinct symbols, at most 1 + |delegates| models. */
  lemma {:induction false} InferredModelsDistinct(s: TypeSymbol, delegates: seq<InitDelegateInfo>)
    ensures DistinctSymbols(InferredModels(s, delegates))
    ensures |ExplicitModels(s)| <= |InferredModels(s, delegates)| <= |ExplicitModels(s)| + |delegates|
    ensures |InferredModels(s, delegates)| <= 1 + |delegates|
    decreases |delegates|
  {
    if delegates != [] {
      var prefix := delegates[..|delegates| - 1];
      InferredModelsDistinct(s, prefix);
      MergeDelegateAppends(InferredModels(s, prefix), delegates[|delegates| - 1]);
    }
  }

  /**
   * When the type is a graph or an extension, the explicit model comes first
   * and keeps its kind; every model whose symbol is not the analysed type was
   * created for a delegate and is a PXGraph.
   */
  lemma {:induction false} InferredModelsKinds(s: TypeSymbol, delegates: seq<InitDelegateInfo>)
    ensures var ms := InferredModels(s, delegates);
      && (GraphTypeOf(s) != GraphType.None ==> |ms| >= 1 && ms[0].symbol == s && ms[0].graphType == GraphTypeOf(s))
      && (forall i :: 0 <= i < |ms| && ms[i].symbol != s ==> ms[i].graphType == PXGraph)
    decreases |delegates|
  {
    if delegates != [] {
      var prefix := delegates[..|delegates| - 1];
      InferredModelsKinds(s, prefix);
      InferredModelsDistinct(s, prefix);
      MergeDelegateAppends(InferredModels(s, prefix), delegates[|delegates| - 1]);
    }
  }

  /** Some delegate among the first `n` is registered for `g`. */
  ghost predicate NamedBefore(delegates: seq<InitDelegateInfo>, n: int, g: TypeSymbol)
  {
    exists k :: 0 <= k < n && k < |delegates| && delegates[k].graphSymbol == g
  }

  /** Every delegate's graph has a model once that delegate has been merged in. */
  lemma {:induction false} NamedIsPresent(s: TypeSymbol, delegates: seq<InitDelegateInfo>, k: nat)
    requires k < |delegates|
    ensures exists i :: 0 <= i < |InferredModels(s, delegates)| && InferredModels(s, delegates)[i].symbol == delegates[k].graphSymbol
    decreases |delegates|
  {
    var prefix, d := delegates[..|delegates| - 1], delegates[|delegates| - 1];
    var ms0, ms := InferredModels(s, prefix), InferredModels(s, delegates);
    InferredModelsDistinct(s, prefix);
    MergeDelegateAppends(ms0, d);
    if k == |delegates| - 1 {
      match FindModel(ms0, d.graphSymbol)
      case Some(i) => assert ms[i].symbol == d.graphSymbol;
      case None => assert ms[|ms0|].symbol == d.graphSymbol;
    } else {
      NamedIsPresent(s, prefix, k);
      var i :| 0 <= i < |ms0| && ms0[i].symbol == prefix[k].graphSymbol;
      assert ms[i].symbol == ms0[i].symbol;
    }
  }

  /** Every model after the explicit one exists because some delegate was registered for its graph. */
  lemma {:induction false} InferredModelsNamed(s: TypeSymbol, delegates: seq<InitDelegateInfo>)
    ensures var ms := InferredModels(s, delegates);
      forall i :: |ExplicitModels(s)| <= i < |ms| ==> NamedBefore(delegates, |delegates|, ms[i].symbol)
    decreases |delegates|
  {
    if delegates != [] {
      var prefix, d := delegates[..|delegates| - 1], delegates[|delegates| - 1];
      var ms0, ms := InferredModels(s, prefix), InferredModels(s, delegates);
      InferredModelsNamed(s, prefix);
      InferredModelsDistinct(s, prefix);
      MergeDelegateAppends(ms0, d);
      forall i | |ExplicitModels(s)| <= i < |ms| ensures NamedBefore(delegates, |delegates|, ms[i].symbol) {
        if i < |ms0| {
          assert ms[i].symbol == ms0[i].symbol;
          var k :| 0 <= k < |prefix| && prefix[k].graphSymbol == ms0[i].symbol;
          assert delegates[k] == prefix[k];
        } else {
          assert ms[i].symbol == delegates[|delegates| - 1].graphSymbol;
        }
      }
    }
  }

  /**
   * Models created for delegates appear in the order their graphs were first
   * named: before any delegate for a later model, the earlier model's graph
   * was already named.
   */
  lemma {:induction false} InferredModelsInDelegateOrder(s: TypeSymbol, delegates: seq<InitDelegateInfo>)
    ensures var ms := InferredModels(s, delegates);
      forall i, j, k :: |ExplicitModels(s)| <= i < j < |ms| && 0 <= k < |delegates| && delegates[k].graphSymbol == ms[j].symbol
        ==> NamedBefore(delegates, k, ms[i].symbol)
    decreases |delegates|
  {
    if delegates != [] {
      var prefix, d := delegates[..|delegates| - 1], delegates[|delegates| - 1];
      var ms0, ms := InferredModels(s, prefix), InferredModels(s, delegates);
      InferredModelsInDelegateOrder(s, prefix);
      InferredModelsNamed(s, prefix);
      InferredModelsDistinct(s, prefix);
      MergeDelegateAppends(ms0, d);
      forall i, j, k | |ExplicitModels(s)| <= i < j < |ms| && 0 <= k < |delegates| && delegates[k].graphSymbol == ms[j].symbol
        ensures NamedBefore(delegates, k, ms[i].symbol)
      {
        assert i < |ms0| && ms[i].symbol == ms0[i].symbol;
        if k == |delegates| - 1 {
          var k' :| 0 <= k' < |prefix| && prefix[k'].graphSymbol == ms0[i].symbol;
          assert delegates[k'] == prefix[k'];
        } else {
          assert delegates[k] == prefix[k];
          NamedIsPresent(s, prefix, k);
          assert j < |ms0|;
          assert ms[j].symbol == ms0[j].symbol;
          var k' :| 0 <= k' < k && k' < |prefix| && prefix[k'].graphSymbol == ms0[i].symbol;
          assert delegates[k'] == prefix[k'];
        }
      }
    }
  }

  /**
   * Each model's initializers are its declared ones followed by the
   * initializers of the delegates registered for its symbol, in the order the
   * delegates were found: earlier initializers are never touched.
   */
  lemma {:induction false} InferredModelsInitializers(s: TypeSymbol, delegates: seq<InitDelegateInfo>)
    ensures var ms := InferredModels(s, delegates);
      forall i :: 0 <= i < |ms| ==>
        ms[i].initializers == DeclaredInitializers(ms[i].graphType, ms[i].symbol) + DelegateInitializersFor(delegates, ms[i].symbol)
    decreases |delegates|
  {
    if delegates != [] {
      var prefix := delegates[..|delegates| - 1];
      var d := delegates[|delegates| - 1];
      var ms0 := InferredModels(s, prefix);
      InferredModelsInitializers(s, prefix);
      InferredModelsDistinct(s, prefix);
      if forall j :: 0 <= j < |ms0| ==> ms0[j].symbol != d.graphSymbol {
        DelegatesForAbsentSymbol(s, prefix, d.graphSymbol);
      }
      MergeKeepsInitializers(ms0, delegates);
    }
  }

  /** One merge step keeps every model's initializers equal to its declared ones followed by its delegates'. */
  lemma MergeKeepsInitializers(ms0: seq<ModelValue>, delegates: seq<InitDelegateInfo>)
    requires delegates != []
    requires DistinctSymbols(ms0)
    requires forall i :: 0 <= i < |ms0| ==>
      ms0[i].initializers == DeclaredInitializers(ms0[i].graphType, ms0[i].symbol) + DelegateInitializersFor(delegates[..|delegates| - 1], ms0[i].symbol)
    requires (forall j :: 0 <= j < |ms0| ==> ms0[j].symbol != delegates[|delegates| - 1].graphSymbol) ==>
      DelegateInitializersFor(delegates[..|delegates| - 1], delegates[|delegates| - 1].graphSymbol) == []
    ensures var ms := MergeDelegate(ms0, delegates[|delegates| - 1]);
      forall i :: 0 <= i < |ms| ==>
        ms[i].initializers == DeclaredInitializers(ms[i].graphType, ms[i].symbol) + DelegateInitializersFor(delegates, ms[i].symbol)
  {
    var ms := MergeDelegate(ms0, delegates[|delegates| - 1]);
    forall i | 0 <= i < |ms|
      ensures ms[i].initializers == DeclaredInitializers(ms[i].graphType, ms[i].symbol) + DelegateInitializersFor(delegates, ms[i].symbol)
    {
      MergeKeepsInitializersAt(ms0, delegates, i);
    }
  }

  lemma MergeKeepsInitializersAt(ms0: seq<ModelValue>, delegates: seq<InitDelegateInfo>, i: nat)
    requires delegates != []
    requires DistinctSymbols(ms0)
    requires i < |ms0| ==>
      ms0[i].initializers == DeclaredInitializers(ms0[i].graphType, ms0[i].symbol) + DelegateInitializersFor(delegates[..|delegates| - 1], ms0[i].symbol)
    requires (forall j :: 0 <= j < |ms0| ==> ms0[j].symbol != delegates[|delegates| - 1].graphSymbol) ==>
      DelegateInitializersFor(delegates[..|delegates| - 1], delegates[|delegates| - 1].graphSymbol) == []
    requires i < |MergeDelegate(ms0, delegates[|delegates| - 1])|
    ensures var m := MergeDelegate(ms0, delegates[|delegates| - 1])[i];
      m.initializers == DeclaredInitializers(m.graphType, m.symbol) + DelegateInitializersFor(delegates, m.symbol)
  {
    var d := delegates[|delegates| - 1];
    var ms := MergeDelegate(ms0, d);
    var found := FindModel(ms0, d.graphSymbol);
    if found.Some? && i == found.value {
      MergedModelAt(ms0, delegates, i);
    } else if i < |ms0| {
      assert ms0[i].symbol != d.graphSymbol by {
        if found.Some? { assert ms0[found.value].symbol == d.graphSymbol; }
      }
      assert ms[i] == ms0[i];
      assert DelegateInitializersFor(delegates, ms0[i].symbol) == DelegateInitializersFor(delegates[..|delegates| - 1], ms0[i].symbol);
    } else {
      CreatedModelAt(ms0, delegates);
    }
  }

  /** The model the delegate's graph already had gets the delegate's initializer at the end. */
  lemma MergedModelAt(ms0: seq<ModelValue>, delegates: seq<InitDelegateInfo>, k: nat)
    requires delegates != []
    requires FindModel(ms0, delegates[|delegates| - 1].graphSymbol) == Some(k)
    requires ms0[k].initializers == DeclaredInitializers(ms0[k].graphType, ms0[k].symbol) + DelegateInitializersFor(delegates[..|delegates| - 1], ms0[k].symbol)
    ensures var m := MergeDelegate(ms0, delegates[|delegates| - 1])[k];
      m.initializers == DeclaredInitializers(m.graphType, m.symbol) + DelegateInitializersFor(delegates, m.symbol)
  {
    var d := delegates[|delegates| - 1];
    var m0 := ms0[k];
    var declared := DeclaredInitializers(m0.graphType, m0.symbol);
    var before := DelegateInitializersFor(delegates[..|delegates| - 1], m0.symbol);
    assert MergeDelegate(ms0, d)[k] == m0.(initializers := m0.initializers + [DelegateInitializer(d)]);
    assert DelegateInitializersFor(delegates, m0.symbol) == before + [DelegateInitializer(d)];
    assert declared + before + [DelegateInitializer(d)] == declared + (before + [DelegateInitializer(d)]);
  }

  /** A model created for the delegate's graph holds its declared initializers and then the delegate's. */
  lemma CreatedModelAt(ms0: seq<ModelValue>, delegates: seq<InitDelegateInfo>)
    requires delegates != []
    requires FindModel(ms0, delegates[|delegates| - 1].graphSymbol).None?
    requires DelegateInitializersFor(delegates[..|delegates| - 1], delegates[|delegates| - 1].graphSymbol) == []
    ensures var m := MergeDelegate(ms0, delegates[|delegates| - 1])[|ms0|];
      m.initializers == DeclaredInitializers(m.graphType, m.symbol) + DelegateInitializersFor(delegates, m.symbol)
  {
    var d := delegates[|delegates| - 1];
    assert DelegateInitializersFor(delegates, d.graphSymbol) == [DelegateInitializer(d)];
  }

  /** A symbol that has no model yet was named by no earlier delegate. */
  lemma {:induction false} DelegatesForAbsentSymbol(s: TypeSymbol, delegates: seq<InitDelegateInfo>, g: TypeSymbol)
    requires forall j :: 0 <= j < |InferredModels(s, delegates)| ==> InferredModels(s, delegates)[j].symbol != g
    ensures DelegateInitializersFor(delegates, g) == []
    decreases |delegates|
  {
    if delegates != [] {
      var prefix := delegates[..|delegates| - 1];
      var d := delegates[|delegates| - 1];
      var ms0 := InferredModels(s, prefix);
      var ms := InferredModels(s, delegates);
      InferredModelsDistinct(s, prefix);
      MergeDelegateAppends(ms0, d);
      assert d.graphSymbol != g by {
        match FindModel(ms0, d.graphSymbol)
        case Some(k) => assert ms[k].symbol == d.graphSymbol;
        case None => assert ms[|ms0|].symbol == d.graphSymbol;
      }
      forall j | 0 <= j < |ms0| ensures ms0[j].symbol != g {
        assert ms[j].symbol == ms0[j].symbol;
      }
      DelegatesForAbsentSymbol(s, prefix, g);
    }
  }

  // ---------------------------------------------------------------------------
  // The model object
  // ---------------------------------------------------------------------------

  class GraphSemanticModel {
    const graphType: GraphType
    const symbol: TypeSymbol
    var initializers: seq<GraphInitializerInfo>

    function Value(): ModelValue
      reads this
    {
      ModelValue(graphType, symbol, initializers)
    }

    constructor (t: GraphType, s: TypeSymbol)
      ensures graphType == t && symbol == s
      ensures initializers == DeclaredInitializers(t, s)
    {
      graphType := t;
      symbol := s;
      initializers := [];
      new;
      InitDeclaredInitializers();
    }

    /** Fills the list of declared initializers according to the graph kind. */
    method InitDeclaredInitializers()
      modifies this`initializers
      ensures initializers == DeclaredInitializers(graphType, symbol)
    {
      var list: seq<GraphInitializerInfo> := [];
      if graphType == PXGraph {
        var ctors := symbol.instanceConstructors;
        for i := 0 to |ctors|
          invariant list == ConstructorInitializers(ctors[..i])
        {
          assert ctors[..i + 1] == ctors[..i] + [ctors[i]];
          ConstructorInitializersAppend(ctors[..i], ctors[i]);
          list := list + [GraphInitializerInfo(InstanceCtr, ctors[i].node, Some(ctors[i].symbol))];
        }
        assert ctors[..|ctors|] == ctors;
      } else if graphType == PXGraphExtension {
        var node, sym := symbol.initializationNode, symbol.initializationSymbol;
        if node.Some? && sym.Some? {
          list := list + [GraphInitializerInfo(InitializeMethod, node.value, sym)];
        }
      }
      initializers := list;
    }

    /** Replaces the initializers with the old ones plus `info` at the end. */
    method AddInitializer(info: GraphInitializerInfo)
      modifies this`initializers
      ensures initializers == old(initializers) + [info]
    {
      initializers := initializers + [info];
    }
  }

  lemma ConstructorInitializersAppend(ctors: seq<ConstructorInfo>, c: ConstructorInfo)
    ensures ConstructorInitializers(ctors + [c])
         == ConstructorInitializers(ctors) + [GraphInitializerInfo(InstanceCtr, c.node, Some(c.symbol))]
  {
    var a := ConstructorInitializers(ctors + [c]);
    var b := ConstructorInitializers(ctors) + [GraphInitializerInfo(InstanceCtr, c.node, Some(c.symbol))];
    assert |a| == |b|;
    forall i | 0 <= i < |a| ensures a[i] == b[i] {
      if i < |ctors| { assert (ctors + [c])[i] == ctors[i]; }
    }
  }

  /** The model objects hold exactly the model values `spec`, index by index. */
  ghost predicate Holds(models: seq<GraphSemanticModel>, spec: seq<ModelValue>)
    reads models
  {
    |models| == |spec| && forall i :: 0 <= i < |models| ==> models[i].Value() == spec[i]
  }

  /** Index of the first model object whose symbol is `s`, as FirstOrDefault finds it. */
  method FindExistingModel(models: seq<GraphSemanticModel>, s: TypeSymbol) returns (k: Option<nat>)
    ensures k.Some? ==> k.value < |models| && models[k.value].symbol == s
    ensures k.Some? ==> forall j :: 0 <= j < k.value ==> models[j].symbol != s
    ensures k.None? ==> forall j :: 0 <= j < |models| ==> models[j].symbol != s
  {
    k := Option.None;
    var i := 0;
    while i < |models|
      invariant 0 <= i <= |models|
      invariant forall j :: 0 <= j < i ==> models[j].symbol != s
    {
      if models[i].symbol == s {
        k := Some(i);
        return;
      }
      i := i + 1;
    }
  }

  /**
   * InferModels: builds the explicit model when the type is a graph or an
   * extension, then for each init delegate finds or creates the model of its
   * graph symbol and appends the delegate's initializer to it.
   */
  method InferModels(typeSymbol: TypeSymbol, delegates: seq<InitDelegateInfo>) returns (models: seq<GraphSemanticModel>)
    ensures forall i :: 0 <= i < |models| ==> fresh(models[i])
    ensures Holds(models, InferredModels(typeSymbol, delegates))
  {
    models := CreateExplicitModel(typeSymbol);
    assert delegates[..0] == [];

    for n := 0 to |delegates|
      invariant forall i :: 0 <= i < |models| ==> fresh(models[i])
      invariant Holds(models, InferredModels(typeSymbol, delegates[..n]))
    {
      assert delegates[..n + 1][..n] == delegates[..n];
      InferredModelsDistinct(typeSymbol, delegates[..n]);
      models := MergeInto(models, delegates[n], InferredModels(typeSymbol, delegates[..n]));
    }
    assert delegates[..|delegates|] == delegates;
  }

  /** The first step of InferModels: a model for the type itself when it is a graph or a graph extension. */
  method CreateExplicitModel(typeSymbol: TypeSymbol) returns (models: seq<GraphSemanticModel>)
    ensures forall i :: 0 <= i < |models| ==> fresh(models[i])
    ensures Holds(models, ExplicitModels(typeSymbol))
  {
    models := [];
    var graphType := GraphType.None;
    if typeSymbol.isPXGraph {
      graphType := PXGraph;
    } else if typeSymbol.isPXGraphExtension {
      graphType := PXGraphExtension;
    }
    if graphType != GraphType.None {
      var explicitModel := new GraphSemanticModel(graphType, typeSymbol);
      models := models + [explicitModel];
    }
  }

  /** One step of InferModels: the delegate's graph gets its model, found or created. */
  method MergeInto(models: seq<GraphSemanticModel>, d: InitDelegateInfo, ghost spec: seq<ModelValue>) returns (merged: seq<GraphSemanticModel>)
    requires Holds(models, spec) && DistinctSymbols(spec)
    modifies set m | m in models
    ensures Holds(merged, MergeDelegate(spec, d))
    ensures forall i :: 0 <= i < |merged| ==> merged[i] in models || fresh(merged[i])
  {
    var existing := FindExistingModel(models, d.graphSymbol);
    if existing.Some? {
      AppendToExisting(models, existing.value, d, spec);
      merged := models;
    } else {
      var created := new GraphSemanticModel(d.GraphType(), d.graphSymbol);
      created.AddInitializer(DelegateInitializer(d));
      CreatedHolds(models, created, d, spec);
      merged := models + [created];
    }
  }

  /** The existing-model branch: append the delegate's initializer to the model at `k`. */
  method AppendToExisting(models: seq<GraphSemanticModel>, k: nat, d: InitDelegateInfo, ghost spec: seq<ModelValue>)
    requires Holds(models, spec) && DistinctSymbols(spec)
    requires k < |models| && models[k].symbol == d.graphSymbol
    modifies models[k]
    ensures Holds(models, MergeDelegate(spec, d))
  {
    MergeDelegateAppends(spec, d);
    var m := models[k];
    forall j | 0 <= j < |models| && j != k ensures models[j] != m {
      assert spec[j].symbol != spec[k].symbol;
    }
    m.AddInitializer(DelegateInitializer(d));
  }

  /** The create branch: a fresh model for the delegate's graph, appended at the end. */
  lemma CreatedHolds(models: seq<GraphSemanticModel>, created: GraphSemanticModel, d: InitDelegateInfo, spec: seq<ModelValue>)
    requires Holds(models, spec) && DistinctSymbols(spec)
    requires forall j :: 0 <= j < |models| ==> models[j].symbol != d.graphSymbol
    requires created.graphType == PXGraph && created.symbol == d.graphSymbol
    requires created.initializers == DeclaredInitializers(PXGraph, d.graphSymbol) + [DelegateInitializer(d)]
    ensures Holds(models + [created], MergeDelegate(spec, d))
  {
    MergeDelegateAppends(spec, d);
    var r := models + [created];
    forall j | 0 <= j < |r| ensures r[j].Value() == MergeDelegate(spec, d)[j] {
      if j < |models| { assert r[j] == models[j]; }
    }
  }
}
