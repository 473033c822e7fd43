/**
 * The event semantic model of a graph (PXGraphEventSemanticModel): the graph's
 * methods are walked from the most-base type to the most-derived one, every
 * method that the handler lookup recognises and that passes the signature and
 * naming checks becomes a graph event with a global declaration order, and the
 * events are sorted into one collection per event type.
 *
 * The handler lookup (GetEventHandlerInfo) is an input: its answer for a
 * method is stored in the method's signatureType and eventType fields.
 */
module GraphEvents {
  import opened Common
  import opened EventTypes
  import opened GraphModel

  datatype EventHandlerSignatureType = None | Default | Generic

  datatype GraphEventCategory = None | Row | Field

  /** A method name: never empty. */
  type Identifier = s: string | |s| > 0 witness "M"

  datatype MethodSymbol = MethodSymbol(
    name: Identifier,
    isStatic: bool,
    parameterCount: nat,
    signatureType: EventHandlerSignatureType,
    eventType: EventType)

  /** A member of a type: only methods matter to the event model. */
  datatype Member = Method(symbol: MethodSymbol) | OtherMember

  /** One type of the graph's hierarchy with its members in declaration order. */
  datatype TypeLayer = TypeLayer(members: seq<Member>)

  datatype GraphEvent = GraphEvent(
    signatureType: EventHandlerSignatureType,
    eventType: EventType,
    handler: MethodSymbol,
    declarationOrder: nat)

  // ---------------------------------------------------------------------------
  // Classification of one method
  // ---------------------------------------------------------------------------

  function GetEventCategoryByEventType(t: EventType): GraphEventCategory
  {
    if IsDacRowEvent(t) then Row
    else if IsDacFieldEvent(t) then Field
    else GraphEventCategory.None
  }

  /**
   * The category table: the ten row event types are Row, the eight field
   * event types are Field, and only EventType.None is in neither.
   */
  lemma EventCategoryTable(t: EventType)
    ensures GetEventCategoryByEventType(t) == Row <==> t != EventType.None && EventIndex(t) < 10
    ensures GetEventCategoryByEventType(t) == Field <==> t != EventType.None && EventIndex(t) >= 10
    ensures GetEventCategoryByEventType(t) == GraphEventCategory.None <==> t == EventType.None
  {
  }

  /**
   * Rules out helper methods that the handler lookup also accepts: static
   * methods, methods with more than two parameters and methods of no
   * category; a recognised non-default signature is enough; a default
   * (name-based) signature needs the underscore convention of its category.
   */
  function IsValidGraphEvent(m: MethodSymbol, sig: EventHandlerSignatureType, cat: GraphEventCategory): (r: bool)
    ensures m.isStatic || m.parameterCount > 2 || cat == GraphEventCategory.None ==> !r
    ensures !m.isStatic && m.parameterCount <= 2 && cat != GraphEventCategory.None && sig != Default ==> r
  {
    if m.isStatic || m.parameterCount > 2 || cat == GraphEventCategory.None then false
    else if sig != Default then true
    else if m.name[0] == '_' || m.name[|m.name| - 1] == '_' then false
    else
      var underscores := CountChar(m.name, '_');
      match cat
      case Row => underscores == 1
      case Field => underscores == 2
      case None => false
  }

  /** `name` is `a_b` with two non-empty parts free of underscores. */
  predicate IsRowHandlerName(name: string, a: string, b: string)
  {
    name == a + "_" + b && a != [] && b != [] && '_' !in a && '_' !in b
  }

  /** `name` is `a_b_c` with non-empty outer parts, all three free of underscores. */
  predicate IsFieldHandlerName(name: string, a: string, b: string, c: string)
  {
    name == a + "_" + b + "_" + c && a != [] && c != [] && '_' !in a && '_' !in b && '_' !in c
  }

  /** The naming convention of a default-signature row event: exactly `Entity_Event`. */
  lemma {:induction false} RowNameConvention(m: MethodSymbol)
    requires !m.isStatic && m.parameterCount <= 2
    ensures IsValidGraphEvent(m, Default, Row) <==> exists a, b :: IsRowHandlerName(m.name, a, b)
  {
    var name: string := m.name;
    if IsValidGraphEvent(m, Default, Row) {
      var a, b := SplitAtFirstUnderscore(name);
      assert name[|a|] == '_';
      assert IsRowHandlerName(name, a, b);
    }
    if exists a, b :: IsRowHandlerName(name, a, b) {
      var a, b :| IsRowHandlerName(name, a, b);
      CountUnderscoresOfJoin(a, b);
      assert name[0] == a[0];
      assert name[|name| - 1] == b[|b| - 1];
    }
  }

  lemma CountUnderscoresOfJoin(a: string, b: string)
    ensures CountChar(a + "_" + b, '_') == CountChar(a, '_') + 1 + CountChar(b, '_')
  {
    CountCharConcat(a + "_", b, '_');
    CountCharConcat(a, "_", '_');
  }

  /** Cutting a string at an underscore: the parts around it carry the other underscores. */
  lemma SplitAtUnderscore(s: string, i: nat)
    requires i < |s| && s[i] == '_'
    ensures s == s[..i] + "_" + s[i + 1..]
    ensures CountChar(s, '_') == CountChar(s[..i], '_') + 1 + CountChar(s[i + 1..], '_')
  {
    var a, b := s[..i], s[i + 1..];
    assert s[..i + 1] == a + "_";
    assert s == s[..i + 1] + b;
    CountUnderscoresOfJoin(a, b);
  }

  /**
   * The naming convention of a default-signature field event: `Entity_Field_Event`.
   * The middle part may be empty: the check only counts underscores and looks
   * at the first and last character, so `A__B` passes.
   */
  lemma FieldNameConvention(m: MethodSymbol)
    requires !m.isStatic && m.parameterCount <= 2
    ensures IsValidGraphEvent(m, Default, Field) <==> exists a, b, c :: IsFieldHandlerName(m.name, a, b, c)
  {
    if IsValidGraphEvent(m, Default, Field) {
      ValidFieldNameSplits(m);
    }
    if exists a, b, c :: IsFieldHandlerName(m.name, a, b, c) {
      var a, b, c :| IsFieldHandlerName(m.name, a, b, c);
      FieldNameIsValid(m, a, b, c);
    }
  }

  lemma ValidDefaultNameFacts(m: MethodSymbol, cat: GraphEventCategory)
    requires IsValidGraphEvent(m, Default, cat)
    ensures m.name[0] != '_' && m.name[|m.name| - 1] != '_'
    ensures cat == Row ==> CountChar(m.name, '_') == 1
    ensures cat == Field ==> CountChar(m.name, '_') == 2
  {
  }

  lemma ValidFieldNameSplits(m: MethodSymbol)
    requires IsValidGraphEvent(m, Default, Field)
    ensures exists a, b, c :: IsFieldHandlerName(m.name, a, b, c)
  {
    ValidDefaultNameFacts(m, Field);
    var a, b, c := SplitTwoUnderscores(m.name);
  }

  /** Cutting a string at its first underscore: the part before it has none, the part after it has all the others. */
  lemma SplitAtFirstUnderscore(s: string) returns (x: string, y: string)
    requires '_' in s
    ensures s == x + "_" + y && '_' !in x
    ensures CountChar(y, '_') == CountChar(s, '_') - 1
  {
    var i := FirstIndexOf(s, '_');
    SplitAtUnderscore(s, i);
    x, y := s[..i], s[i + 1..];
  }

  /** A name with two underscores, none at either end, splits into the three parts of a field handler name. */
  lemma SplitTwoUnderscores(name: string) returns (a: string, b: string, c: string)
    requires |name| > 0 && name[0] != '_' && name[|name| - 1] != '_'
    requires CountChar(name, '_') == 2
    ensures IsFieldHandlerName(name, a, b, c)
  {
    var rest;
    a, rest := SplitAtFirstUnderscore(name);
    b, c := SplitAtFirstUnderscore(rest);
    assert name == a + "_" + b + "_" + c;
    assert name[|a|] == '_' && name[|a| + 1 + |b|] == '_';
  }

  lemma {:induction false} FieldNameIsValid(m: MethodSymbol, a: string, b: string, c: string)
    requires !m.isStatic && m.parameterCount <= 2
    requires IsFieldHandlerName(m.name, a, b, c)
    ensures IsValidGraphEvent(m, Default, Field)
  {
    var name: string := m.name;
    CountUnderscoresOfJoin(a + "_" + b, c);
    CountUnderscoresOfJoin(a, b);
    assert name[0] == a[0];
    assert name[|name| - 1] == c[|c| - 1];
  }

  /** Handlers named `_` with a typed event-argument signature are accepted, whatever the event. */
  lemma DiscardNamedHandlers(t: EventType, paramCount: nat)
    requires t != EventType.None && paramCount <= 2
    ensures IsValidGraphEvent(MethodSymbol("_", false, paramCount, Generic, t), Generic, GetEventCategoryByEventType(t))
    ensures !IsValidGraphEvent(MethodSymbol("_", false, paramCount, Default, t), Default, GetEventCategoryByEventType(t))
  {
  }

  /** A method the walk keeps: recognised by the lookup, and a valid graph event. */
  predicate IsAccepted(m: MethodSymbol)
  {
    m.signatureType != EventHandlerSignatureType.None && m.eventType != EventType.None
    && IsValidGraphEvent(m, m.signatureType, GetEventCategoryByEventType(m.eventType))
  }

  // ---------------------------------------------------------------------------
  // The walk over the graph's methods
  // ---------------------------------------------------------------------------

  /** The methods of `ms` that the walk keeps, in walk order. */
  function AcceptedHandlers(ms: seq<MethodSymbol>): seq<MethodSymbol>
    decreases |ms|
  {
    if ms == [] then []
    else AcceptedHandlers(ms[..|ms| - 1]) + (if IsAccepted(ms[|ms| - 1]) then [ms[|ms| - 1]] else [])
  }

  /** The events the walk collects: the kept methods, numbered from 0 in walk order. */
  function CollectEvents(ms: seq<MethodSymbol>): seq<GraphEvent>
  {
    var hs := AcceptedHandlers(ms);
    seq(|hs|, i requires 0 <= i < |hs| => GraphEvent(hs[i].signatureType, hs[i].eventType, hs[i], i))
  }

  /** The handlers the walk keeps are exactly the accepted methods of the input. */
  lemma {:induction false} AcceptedHandlersMembers(ms: seq<MethodSymbol>)
    ensures forall m :: m in AcceptedHandlers(ms) <==> m in ms && IsAccepted(m)
    ensures |AcceptedHandlers(ms)| <= |ms|
    decreases |ms|
  {
    if ms != [] {
      var prefix := ms[..|ms| - 1];
      AcceptedHandlersMembers(prefix);
      assert ms == prefix + [ms[|ms| - 1]];
    }
  }

  /**
   * The declaration counter: a skipped method does not consume a number, and
   * an accepted one is appended with the next number, one more than the last.
   */
  lemma CollectEventsStep(ms: seq<MethodSymbol>, m: MethodSymbol)
    ensures !IsAccepted(m) ==> CollectEvents(ms + [m]) == CollectEvents(ms)
    ensures IsAccepted(m) ==>
      CollectEvents(ms + [m]) == CollectEvents(ms) + [GraphEvent(m.signatureType, m.eventType, m, |CollectEvents(ms)|)]
  {
    assert (ms + [m])[..|ms + [m]| - 1] == ms;
  }

  /**
   * Every collected event comes from an accepted method of the input, carries
   * the lookup's answers, has a non-None type, and the orders are distinct and
   * strictly increasing; every accepted method of the input is collected.
   */
  lemma CollectedEventsFacts(ms: seq<MethodSymbol>)
    ensures var es := CollectEvents(ms);
      && (forall i :: 0 <= i < |es| ==>
            es[i].handler in ms && IsAccepted(es[i].handler) && es[i].eventType != EventType.None
            && es[i].eventType == es[i].handler.eventType && es[i].signatureType == es[i].handler.signatureType)
      && (forall i, j :: 0 <= i < j < |es| ==> es[i].declarationOrder < es[j].declarationOrder)
      && (forall m :: m in ms && IsAccepted(m) ==> exists i :: 0 <= i < |es| && es[i].handler == m)
  {
    AcceptedHandlersMembers(ms);
    var es := CollectEvents(ms);
    var hs := AcceptedHandlers(ms);
    forall m | m in ms && IsAccepted(m) ensures exists i :: 0 <= i < |es| && es[i].handler == m {
      var i :| 0 <= i < |hs| && hs[i] == m;
      assert es[i].handler == m;
    }
  }

  /** The walk of InitializeEvents: the counter advances once per accepted event. */
  method InitializeEvents(methods: seq<MethodSymbol>) returns (events: seq<GraphEvent>)
    ensures events == CollectEvents(methods)
  {
    events := [];
    var declarationOrder := 0;
    for k := 0 to |methods|
      invariant events == CollectEvents(methods[..k])
      invariant declarationOrder == |events|
    {
      var candidate := methods[k];
      assert methods[..k + 1] == methods[..k] + [candidate];
      CollectEventsStep(methods[..k], candidate);
      if candidate.signatureType == EventHandlerSignatureType.None || candidate.eventType == EventType.None {
        continue;
      }
      var eventCategory := GetEventCategoryByEventType(candidate.eventType);
      if !IsValidGraphEvent(candidate, candidate.signatureType, eventCategory) {
        continue;
      }
      // AddEvent for a row event, AddFieldEvent for a field event
      events := events + [GraphEvent(candidate.signatureType, candidate.eventType, candidate, declarationOrder)];
      declarationOrder := declarationOrder + 1;
    }
    assert methods[..|methods|] == methods;
  }

  // ---------------------------------------------------------------------------
  // The order of the walk: base types first, then extensions
  // ---------------------------------------------------------------------------

  function Reverse<T>(s: seq<T>): (r: seq<T>)
    ensures |r| == |s|
    ensures forall k :: 0 <= k < |s| ==> r[k] == s[|s| - 1 - k]
  {
    if s == [] then [] else Reverse(s[1..]) + [s[0]]
  }

  /**
   * The layers visited: the graph's base-type chain (given most-derived first)
   * reversed, followed for a graph extension by the extension chain in
   * ascending order, without the graph itself.
   */
  function LayersFromBaseToDerived(t: GraphType, graphWithBaseTypes: seq<TypeLayer>, extensionsAscending: seq<TypeLayer>): (r: seq<TypeLayer>)
    ensures |r| == |graphWithBaseTypes| + (if t == PXGraphExtension then |extensionsAscending| else 0)
    ensures forall k :: 0 <= k < |graphWithBaseTypes| ==> r[k] == graphWithBaseTypes[|graphWithBaseTypes| - 1 - k]
    ensures t == PXGraphExtension ==>
      forall k :: 0 <= k < |extensionsAscending| ==> r[|graphWithBaseTypes| + k] == extensionsAscending[k]
  {
    Reverse(graphWithBaseTypes) + (if t == PXGraphExtension then extensionsAscending else [])
  }

  /** The methods of one layer, in declaration order. */
  function MethodsOf(members: seq<Member>): seq<MethodSymbol>
  {
    if members == [] then []
    else (if members[0].Method? then [members[0].symbol] else []) + MethodsOf(members[1..])
  }

  function FlattenMethods(layers: seq<TypeLayer>): seq<MethodSymbol>
  {
    if layers == [] then [] else MethodsOf(layers[0].members) + FlattenMethods(layers[1..])
  }

  lemma {:induction false} FlattenMethodsAppend(a: seq<TypeLayer>, b: seq<TypeLayer>)
    ensures FlattenMethods(a + b) == FlattenMethods(a) + FlattenMethods(b)
  {
    if a == [] {
      assert a + b == b;
    } else {
      assert (a + b)[1..] == a[1..] + b;
      FlattenMethodsAppend(a[1..], b);
    }
  }

  function GetAllGraphMethodsFromBaseToDerived(t: GraphType, graphWithBaseTypes: seq<TypeLayer>, extensionsAscending: seq<TypeLayer>): seq<MethodSymbol>
  {
    FlattenMethods(LayersFromBaseToDerived(t, graphWithBaseTypes, extensionsAscending))
  }

  /**
   * All methods of the graph's own hierarchy come before all methods of the
   * extensions, and the extensions' methods are included only for a graph
   * extension.
   */
  lemma GraphMethodsBeforeExtensionMethods(t: GraphType, graphWithBaseTypes: seq<TypeLayer>, extensionsAscending: seq<TypeLayer>)
    ensures GetAllGraphMethodsFromBaseToDerived(t, graphWithBaseTypes, extensionsAscending)
         == FlattenMethods(Reverse(graphWithBaseTypes))
            + (if t == PXGraphExtension then FlattenMethods(extensionsAscending) else [])
  {
    FlattenMethodsAppend(Reverse(graphWithBaseTypes), if t == PXGraphExtension then extensionsAscending else []);
  }

  // ---------------------------------------------------------------------------
  // Per-type collections and the model object
  // ---------------------------------------------------------------------------

  /** The events of the types in `types`, in collection order. */
  function EventsOfTypes(es: seq<GraphEvent>, types: seq<EventType>): seq<GraphEvent>
  {
    if es == [] then []
    else (if es[0].eventType in types then [es[0]] else []) + EventsOfTypes(es[1..], types)
  }

  /** The concatenation of the collections of `order`, one type after the other. */
  function ConcatCollections(byType: map<EventType, seq<GraphEvent>>, order: seq<EventType>): seq<GraphEvent>
  {
    if order == [] then []
    else (if order[0] in byType then byType[order[0]] else []) + ConcatCollections(byType, order[1..])
  }

  /** The eighteen collections built from the collected events. */
  function CollectionsByType(es: seq<GraphEvent>): (m: map<EventType, seq<GraphEvent>>)
    ensures m.Keys == set t | t in AllEventTypes
  {
    map t | t in AllEventTypes :: EventsOfTypes(es, [t])
  }

  /** The eighteen empty collections of a model whose graph type is None. */
  function EmptyCollections(): (m: map<EventType, seq<GraphEvent>>)
    ensures m.Keys == set t | t in AllEventTypes
  {
    map t | t in AllEventTypes :: []
  }

  class GraphEventSemanticModel {
    const graphType: GraphType
    const eventsByType: map<EventType, seq<GraphEvent>>

    /**
     * Builds the collections: for a graph or an extension, walks its methods
     * from base to derived; for a type of kind None, every collection is empty.
     */
    constructor (t: GraphType, graphWithBaseTypes: seq<TypeLayer>, extensionsAscending: seq<TypeLayer>)
      ensures graphType == t
      ensures t == GraphType.None ==> eventsByType == EmptyCollections()
      ensures t != GraphType.None ==>
        eventsByType == CollectionsByType(CollectEvents(GetAllGraphMethodsFromBaseToDerived(t, graphWithBaseTypes, extensionsAscending)))
    {
      graphType := t;
      if t != GraphType.None {
        var events := InitializeEvents(GetAllGraphMethodsFromBaseToDerived(t, graphWithBaseTypes, extensionsAscending));
        eventsByType := CollectionsByType(events);
      } else {
        eventsByType := EmptyCollections();
      }
    }

    /** The collection of one event type; empty for a type outside the eighteen. */
    function GetEventsByEventType(t: EventType): (r: seq<GraphEvent>)
      ensures t == EventType.None ==> r == []
    {
      if t in eventsByType && t != EventType.None then eventsByType[t] else []
    }

    /** All events: the eighteen collections one after the other, RowSelecting first, ExceptionHandling last. */
    method GetAllEvents() returns (allEvents: seq<GraphEvent>)
      ensures allEvents == ConcatCollections(eventsByType, AllEventTypes)
    {
      allEvents := ConcatInOrder(AllEventTypes);
    }

    /** The collections of `order` appended one after the other, skipping empty ones. */
    method ConcatInOrder(order: seq<EventType>) returns (allEvents: seq<GraphEvent>)
      ensures allEvents == ConcatCollections(eventsByType, order)
    {
      allEvents := [];
      for k := 0 to |order|
        invariant allEvents + ConcatCollections(eventsByType, order[k..]) == ConcatCollections(eventsByType, order)
      {
        assert order[k..][1..] == order[k + 1..];
        var t := order[k];
        if t in eventsByType && |eventsByType[t]| > 0 {
          allEvents := allEvents + eventsByType[t];
        }
      }
    }
  }

  // ---------------------------------------------------------------------------
  // Properties of the collections
  // ---------------------------------------------------------------------------

  /** A model whose graph type is None has no events at all. */
  lemma {:induction false} EmptyCollectionsConcat(order: seq<EventType>)
    requires forall t :: t in order ==> t in AllEventTypes
    ensures ConcatCollections(EmptyCollections(), order) == []
  {
    if order != [] {
      EmptyCollectionsConcat(order[1..]);
    }
  }

  lemma {:induction false} EventsOfTypesSplit(es: seq<GraphEvent>, t: EventType, rest: seq<EventType>)
    requires t !in rest
    ensures multiset(EventsOfTypes(es, [t] + rest)) == multiset(EventsOfTypes(es, [t])) + multiset(EventsOfTypes(es, rest))
  {
    if es != [] {
      EventsOfTypesSplit(es[1..], t, rest);
    }
  }

  lemma {:induction false} EventsOfTypesAll(es: seq<GraphEvent>, types: seq<EventType>)
    requires forall i :: 0 <= i < |es| ==> es[i].eventType in types
    ensures EventsOfTypes(es, types) == es
  {
    if es != [] {
      EventsOfTypesAll(es[1..], types);
    }
  }

  lemma {:induction false} EventsOfTypesNone(es: seq<GraphEvent>)
    ensures EventsOfTypes(es, []) == []
  {
    if es != [] {
      EventsOfTypesNone(es[1..]);
    }
  }

  lemma {:induction false} ConcatCollectionsMultiset(es: seq<GraphEvent>, order: seq<EventType>)
    requires forall i, j :: 0 <= i < j < |order| ==> order[i] != order[j]
    requires forall t :: t in order ==> t in AllEventTypes
    ensures multiset(ConcatCollections(CollectionsByType(es), order)) == multiset(EventsOfTypes(es, order))
  {
    if order == [] {
      EventsOfTypesNone(es);
    } else {
      var rest := order[1..];
      var byType := CollectionsByType(es);
      ConcatCollectionsMultiset(es, rest);
      assert order[0] in byType && byType[order[0]] == EventsOfTypes(es, [order[0]]);
      assert ConcatCollections(byType, order) == byType[order[0]] + ConcatCollections(byType, rest);
      assert order == [order[0]] + rest;
      assert order[0] !in rest;
      EventsOfTypesSplit(es, order[0], rest);
    }
  }

  /**
   * GetAllEvents of a model built from a graph or an extension holds exactly
   * the collected events, each as often as it was collected: none is lost and
   * none is listed under two types.
   */
  lemma AllEventsArePermutationOfCollected(ms: seq<MethodSymbol>)
    ensures multiset(ConcatCollections(CollectionsByType(CollectEvents(ms)), AllEventTypes)) == multiset(CollectEvents(ms))
  {
    var es := CollectEvents(ms);
    CollectedEventsFacts(ms);
    AllEventTypesDistinct();
    ConcatCollectionsMultiset(es, AllEventTypes);
    forall i | 0 <= i < |es| ensures es[i].eventType in AllEventTypes {
      AllEventTypesComplete(es[i].eventType);
    }
    EventsOfTypesAll(es, AllEventTypes);
  }

  lemma {:induction false} EventsOfTypesMembers(es: seq<GraphEvent>, types: seq<EventType>)
    ensures forall e :: e in EventsOfTypes(es, types) <==> e in es && e.eventType in types
  {
    if es != [] {
      EventsOfTypesMembers(es[1..], types);
      assert es == [es[0]] + es[1..];
    }
  }

  /** The collection of an event type holds exactly the collected events of that type. */
  lemma CollectionOfType(ms: seq<MethodSymbol>, t: EventType)
    requires t != EventType.None
    ensures t in CollectionsByType(CollectEvents(ms))
    ensures forall e :: e in CollectionsByType(CollectEvents(ms))[t] <==> e in CollectEvents(ms) && e.eventType == t
  {
    AllEventTypesComplete(t);
    EventsOfTypesMembers(CollectEvents(ms), [t]);
  }

  /** A model of kind None answers every query with no events. */
  lemma NoneModelHasNoEvents(model: GraphEventSemanticModel, t: EventType)
    requires model.eventsByType == EmptyCollections()
    ensures model.GetEventsByEventType(t) == []
    ensures ConcatCollections(model.eventsByType, AllEventTypes) == []
  {
    EmptyCollectionsConcat(AllEventTypes);
  }
}
