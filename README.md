# Acuminator core, modelled in Dafny

Acuminator is a set of Roslyn analyzers and a Visual Studio extension for
Acumatica Framework code. This project models five parts of it, with the
Roslyn symbols, syntax nodes and attribute data replaced by small datatypes
that hold the answers of the Roslyn lookups:

- **Graph semantic model** (`GraphModel.dfy`, from `PXGraphSemanticModel`).
  It decides whether a type is a PXGraph, a PXGraphExtension or neither. It
  collects the declared initializers: instance constructors for a graph, the
  `Initialize` method for an extension. `InferModels` builds one model for the
  type, then does find-or-create for every
  `PXGraph.InstanceCreated.AddHandler` delegate. `GraphSemanticModel` is a
  class whose `Initializers` list is replaced as delegates are merged in.
- **Graph event semantic model** (`EventTypes.dfy`, `GraphEvents.dfy`, from
  `PXGraphEventSemanticModel`). It walks the graph's methods from base type to
  derived type, extensions last. It keeps the event handlers that pass the
  signature and underscore-naming checks and numbers them with a global
  declaration order. It sorts them into eighteen per-event-type collections
  and concatenates those collections for `GetAllEvents`.
- **PX1030** (`DacDefaultAttribute.dfy`, from
  `DacExtensionDefaultAttributeAnalyzer`). It finds the bound type of a DAC or
  DAC extension property, looking down the override chain for extensions. It
  finds the property's `PXDefault` attribute and its
  `PersistingCheck = Nothing` argument, compares against the nearest
  overridden default, and reports the OnDAC, Error or Warning descriptor.
- **Document changes classification** (`ChangesClassifier.dfy`, from
  `DocumentChangesClassifier`). Each text change is classified by walking up
  from the node that contains it: Trivia, Attributes, StatementsBlock, Class
  or Namespace. The results for all changes are OR-ed together. The flags
  enum `ChangeLocation` is modelled as a set of flags, so `None` is `{}` and
  `|` is union.
- **PX1043** (`SavingChanges.dfy`, from `SavingChangesInEventHandlersAnalyzer`).
  Its decision table picks a descriptor for a save call. A class `Walker`
  keeps the `IsTransactionOpened` bit that `if (e.TranStatus ==
  PXTranStatus.Open)` sets. It visits a handler's syntax tree and does not
  descend into invocations it reports.

`Common.dfy` holds `Option` and two string helpers.

Each step-by-step part of the source is modelled as a method with a loop or a
class whose methods update fields. Each method is proved equal to a
specification function. The properties that follow are proved about those
functions as lemmas.

## Model

| member | source | states |
|---|---|---|
| GraphModel.GraphTypeOfCases | src/Acuminator/Acuminator.Utilities/Roslyn/Semantic/PXGraph/PXGraphSemanticModel.cs:77-86 | The graph kind is PXGraph iff the type is a graph. It is PXGraphExtension iff it is an extension but not a graph. It is None iff it is neither. |
| GraphModel.ConstructorInitializers | src/Acuminator/Acuminator.Utilities/Roslyn/Semantic/PXGraph/PXGraphSemanticModel.cs:42-46 | One InstanceCtr initializer per declared instance constructor, in order, carrying that constructor's node and symbol. |
| GraphModel.DeclaredInitializersByKind | src/Acuminator/Acuminator.Utilities/Roslyn/Semantic/PXGraph/PXGraphSemanticModel.cs:36-59 | A graph gets exactly its constructors. An extension gets at most one InitializeMethod initializer, and gets one iff both the node and the symbol of `Initialize` exist. A None type gets none. |
| GraphModel.GraphSemanticModel.constructor | src/Acuminator/Acuminator.Utilities/Roslyn/Semantic/PXGraph/PXGraphSemanticModel.cs:23-34 | Type and symbol are set, and the initializers are the declared ones for that kind. |
| GraphModel.GraphSemanticModel.InitDeclaredInitializers | src/Acuminator/Acuminator.Utilities/Roslyn/Semantic/PXGraph/PXGraphSemanticModel.cs:36-59 | The list filled by the loop equals the declared initializers of the model's kind. |
| GraphModel.GraphSemanticModel.AddInitializer | src/Acuminator/Acuminator.Utilities/Roslyn/Semantic/PXGraph/PXGraphSemanticModel.cs:113 | The initializers become the old ones with the new one appended. |
| GraphModel.FindModel | src/Acuminator/Acuminator.Utilities/Roslyn/Semantic/PXGraph/PXGraphSemanticModel.cs:100 | The result is the first index whose symbol matches, or None iff no model has that symbol. |
| GraphModel.FindExistingModel | src/Acuminator/Acuminator.Utilities/Roslyn/Semantic/PXGraph/PXGraphSemanticModel.cs:100 | The same first-match search over model objects, as a loop. |
| GraphModel.MergeDelegateAppends | src/Acuminator/Acuminator.Utilities/Roslyn/Semantic/PXGraph/PXGraphSemanticModel.cs:97-114 | One delegate step keeps the symbols distinct. It appends the delegate's initializer only to the model of its graph and leaves every other model unchanged. It adds a model iff none had that symbol, and the new model is a PXGraph with declared initializers plus this one. |
| GraphModel.InferredModelsDistinct | src/Acuminator/Acuminator.Utilities/Roslyn/Semantic/PXGraph/PXGraphSemanticModel.cs:69-117 | The inferred models have pairwise distinct symbols. There are at most 1 + (number of delegates) of them, and never fewer than the explicit models. |
| GraphModel.InferredModelsKinds | src/Acuminator/Acuminator.Utilities/Roslyn/Semantic/PXGraph/PXGraphSemanticModel.cs:87-113 | For a graph or extension, the explicit model comes first and keeps its kind. Every model for another symbol is a PXGraph. |
| GraphModel.InferredModelsInitializers | src/Acuminator/Acuminator.Utilities/Roslyn/Semantic/PXGraph/PXGraphSemanticModel.cs:95-114 | Each model's initializers are its declared initializers followed by its own delegates' initializers, in discovery order. |
| GraphModel.DelegatesForAbsentSymbol | src/Acuminator/Acuminator.Utilities/Roslyn/Semantic/PXGraph/PXGraphSemanticModel.cs:100-110 | A symbol with no model was named by no delegate processed so far. |
| GraphModel.NamedIsPresent | src/Acuminator/Acuminator.Utilities/Roslyn/Semantic/PXGraph/PXGraphSemanticModel.cs:97-114 | Once a delegate is merged in, its graph has a model. |
| GraphModel.InferredModelsNamed | src/Acuminator/Acuminator.Utilities/Roslyn/Semantic/PXGraph/PXGraphSemanticModel.cs:97-114 | Every model after the explicit one was created for a graph that some delegate named. |
| GraphModel.InferredModelsInDelegateOrder | src/Acuminator/Acuminator.Utilities/Roslyn/Semantic/PXGraph/PXGraphSemanticModel.cs:97-114 | Created models appear in the order their graphs were first named: before any delegate for a later model, some delegate named the earlier model's graph. |
| GraphModel.InferModels | src/Acuminator/Acuminator.Utilities/Roslyn/Semantic/PXGraph/PXGraphSemanticModel.cs:69-117 | The returned model objects are fresh, and index by index they hold the values of `InferredModels`. |
| GraphModel.CreateExplicitModel | src/Acuminator/Acuminator.Utilities/Roslyn/Semantic/PXGraph/PXGraphSemanticModel.cs:75-92 | The first models are fresh and hold `ExplicitModels`: one model of the type's own kind when it is a graph or an extension, none otherwise. |
| GraphModel.MergeInto | src/Acuminator/Acuminator.Utilities/Roslyn/Semantic/PXGraph/PXGraphSemanticModel.cs:97-114 | One delegate step turns models holding a list of values into models holding `MergeDelegate` of that list. Each resulting model is an old one or a fresh one. |
| GraphModel.MergeKeepsInitializers | src/Acuminator/Acuminator.Utilities/Roslyn/Semantic/PXGraph/PXGraphSemanticModel.cs:97-114 | One delegate step keeps every model's initializers equal to its declared initializers followed by its delegates' initializers. |
| GraphModel.MergedModelAt | src/Acuminator/Acuminator.Utilities/Roslyn/Semantic/PXGraph/PXGraphSemanticModel.cs:100-113 | The existing model of the delegate's graph gets the delegate's initializer at the end of its list. |
| GraphModel.CreatedModelAt | src/Acuminator/Acuminator.Utilities/Roslyn/Semantic/PXGraph/PXGraphSemanticModel.cs:107-113 | A model created for an unseen graph holds that graph's declared initializers, then the delegate's. |
| GraphModel.AppendToExisting | src/Acuminator/Acuminator.Utilities/Roslyn/Semantic/PXGraph/PXGraphSemanticModel.cs:102-113 | Appending to the found model changes only that object, so the objects hold the merged values. |
| GraphModel.CreatedHolds | src/Acuminator/Acuminator.Utilities/Roslyn/Semantic/PXGraph/PXGraphSemanticModel.cs:106-113 | Appending a newly created model with its initializer gives the merged values. |
| GraphModel.ConstructorInitializersAppend | src/Acuminator/Acuminator.Utilities/Roslyn/Semantic/PXGraph/PXGraphSemanticModel.cs:44-46 | One more constructor adds one InstanceCtr initializer at the end. |
| EventTypes.AllEventTypesComplete | src/Acuminator/Acuminator.Utilities/Roslyn/Semantic/SemanticModel/PXGraph/PXGraphEventSemanticModel.cs:201-224 | Every event type except None appears in the eighteen-type list at its own index. None is the only one missing. |
| EventTypes.RowOrFieldEvent | src/Acuminator/Acuminator.Utilities/Roslyn/Semantic/SemanticModel/PXGraph/PXGraphEventSemanticModel.cs:201-224 | Every event type except None is a row event or a field event, never both. None is neither. |
| EventTypes.AllEventTypesDistinct | src/Acuminator/Acuminator.Utilities/Roslyn/Semantic/SemanticModel/PXGraph/PXGraphEventSemanticModel.cs:228-248 | No event type is listed twice. |
| EventTypes.EventIndexOfListed | src/Acuminator/Acuminator.Utilities/Roslyn/Semantic/SemanticModel/PXGraph/PXGraphEventSemanticModel.cs:228-248 | The i-th listed type has index i. |
| GraphEvents.EventCategoryTable | src/Acuminator/Acuminator.Utilities/Roslyn/Semantic/SemanticModel/PXGraph/PXGraphEventSemanticModel.cs:338-343 | The first ten types are Row, the last eight are Field, and only EventType.None has category None. |
| GraphEvents.IsValidGraphEvent | src/Acuminator/Acuminator.Utilities/Roslyn/Semantic/SemanticModel/PXGraph/PXGraphEventSemanticModel.cs:353-359 | Static methods, methods with more than two parameters and methods of no category are rejected. Otherwise any non-default signature is accepted. |
| GraphEvents.RowNameConvention | src/Acuminator/Acuminator.Utilities/Roslyn/Semantic/SemanticModel/PXGraph/PXGraphEventSemanticModel.cs:360-372 | A default-signature row handler is valid iff its name is `A_B`, with A and B non-empty and free of underscores. |
| GraphEvents.FieldNameConvention | src/Acuminator/Acuminator.Utilities/Roslyn/Semantic/SemanticModel/PXGraph/PXGraphEventSemanticModel.cs:360-372 | A default-signature field handler is valid iff its name is `A_B_C`, with non-empty outer parts and no other underscores. The middle part may be empty. |
| GraphEvents.SplitTwoUnderscores | src/Acuminator/Acuminator.Utilities/Roslyn/Semantic/SemanticModel/PXGraph/PXGraphEventSemanticModel.cs:362-370 | A name with two underscores, neither at an end, splits into the three parts of a field handler name. |
| GraphEvents.FieldNameIsValid | src/Acuminator/Acuminator.Utilities/Roslyn/Semantic/SemanticModel/PXGraph/PXGraphEventSemanticModel.cs:362-372 | An `A_B_C` name passes the field-handler check. |
| GraphEvents.ValidDefaultNameFacts | src/Acuminator/Acuminator.Utilities/Roslyn/Semantic/SemanticModel/PXGraph/PXGraphEventSemanticModel.cs:362-372 | A valid default-signature name neither starts nor ends with `_`. It has one underscore for a row event and two for a field event. |
| GraphEvents.DiscardNamedHandlers | src/Acuminator/Acuminator.Tests/Tests/StaticAnalysis/RaiseExceptionHandling/Sources/EventHandlers/ValidEventHandlers.cs:12-30 | A handler named `_` with a generic signature is accepted for every event type. With a default signature it is rejected. |
| GraphEvents.AcceptedHandlersMembers | src/Acuminator/Acuminator.Utilities/Roslyn/Semantic/SemanticModel/PXGraph/PXGraphEventSemanticModel.cs:278-286 | The kept handlers are exactly the input methods that the lookup recognises and that pass the validity check. |
| GraphEvents.CollectEventsStep | src/Acuminator/Acuminator.Utilities/Roslyn/Semantic/SemanticModel/PXGraph/PXGraphEventSemanticModel.cs:272-298 | A skipped method does not consume an order number. An accepted method is appended with the next number. |
| GraphEvents.CollectedEventsFacts | src/Acuminator/Acuminator.Utilities/Roslyn/Semantic/SemanticModel/PXGraph/PXGraphEventSemanticModel.cs:266-301 | Every collected event comes from an accepted input method, carries the lookup's answers and has a type other than None. Declaration orders strictly increase. Every accepted method is collected. |
| GraphEvents.InitializeEvents | src/Acuminator/Acuminator.Utilities/Roslyn/Semantic/SemanticModel/PXGraph/PXGraphEventSemanticModel.cs:266-301 | The loop with its counter yields exactly `CollectEvents` of the methods. |
| GraphEvents.Reverse | src/Acuminator/Acuminator.Utilities/Roslyn/Semantic/SemanticModel/PXGraph/PXGraphEventSemanticModel.cs:305-307 | Position k of the result holds position n-1-k of the input. |
| GraphEvents.LayersFromBaseToDerived | src/Acuminator/Acuminator.Utilities/Roslyn/Semantic/SemanticModel/PXGraph/PXGraphEventSemanticModel.cs:303-315 | The graph's type chain comes reversed, so the base comes first. For a graph extension only, the extensions follow in ascending order. |
| GraphEvents.FlattenMethodsAppend | src/Acuminator/Acuminator.Utilities/Roslyn/Semantic/SemanticModel/PXGraph/PXGraphEventSemanticModel.cs:317 | Flattening distributes over concatenation of layers. |
| GraphEvents.GraphMethodsBeforeExtensionMethods | src/Acuminator/Acuminator.Utilities/Roslyn/Semantic/SemanticModel/PXGraph/PXGraphEventSemanticModel.cs:303-318 | All methods of the graph's own chain come before all extension methods. Extension methods are walked only for a graph extension. |
| GraphEvents.GraphEventSemanticModel.constructor | src/Acuminator/Acuminator.Utilities/Roslyn/Semantic/SemanticModel/PXGraph/PXGraphEventSemanticModel.cs:127-184 | For a None type all eighteen collections are empty. Otherwise they are built from the events collected over the base-to-derived walk. |
| GraphEvents.GraphEventSemanticModel.GetEventsByEventType | src/Acuminator/Acuminator.Utilities/Roslyn/Semantic/SemanticModel/PXGraph/PXGraphEventSemanticModel.cs:201-224 | EventType.None yields no events. |
| GraphEvents.GraphEventSemanticModel.GetAllEvents | src/Acuminator/Acuminator.Utilities/Roslyn/Semantic/SemanticModel/PXGraph/PXGraphEventSemanticModel.cs:226-264 | The eighteen collections are concatenated in RowSelecting … ExceptionHandling order. Skipping the empty ones changes nothing. |
| GraphEvents.GraphEventSemanticModel.ConcatInOrder | src/Acuminator/Acuminator.Utilities/Roslyn/Semantic/SemanticModel/PXGraph/PXGraphEventSemanticModel.cs:228-262 | Appending the non-empty collections of a list of types, one after the other, yields the concatenation of all of them in that order. |
| GraphEvents.CollectionOfType | src/Acuminator/Acuminator.Utilities/Roslyn/Semantic/SemanticModel/PXGraph/PXGraphEventSemanticModel.cs:134-159 | The collection of each of the eighteen types exists and holds exactly the collected events of that type. |
| GraphEvents.EventsOfTypesMembers | src/Acuminator/Acuminator.Utilities/Roslyn/Semantic/SemanticModel/PXGraph/PXGraphEventSemanticModel.cs:134-159 | Filtering by types keeps exactly the events of those types. |
| GraphEvents.AllEventsArePermutationOfCollected | src/Acuminator/Acuminator.Utilities/Roslyn/Semantic/SemanticModel/PXGraph/PXGraphEventSemanticModel.cs:226-301 | `GetAllEvents` of a model is a permutation of the collected events: none is lost and none is listed twice. |
| GraphEvents.ConcatCollectionsMultiset | src/Acuminator/Acuminator.Utilities/Roslyn/Semantic/SemanticModel/PXGraph/PXGraphEventSemanticModel.cs:226-264 | For distinct listed types, the concatenated collections hold the same events as one filter by all of those types. |
| GraphEvents.EventsOfTypesSplit | src/Acuminator/Acuminator.Utilities/Roslyn/Semantic/SemanticModel/PXGraph/PXGraphEventSemanticModel.cs:134-159 | Filtering by a new type plus others is the union of the two filters. |
| GraphEvents.EventsOfTypesAll | src/Acuminator/Acuminator.Utilities/Roslyn/Semantic/SemanticModel/PXGraph/PXGraphEventSemanticModel.cs:134-159 | A filter that admits every event's type keeps everything. |
| GraphEvents.EventsOfTypesNone | src/Acuminator/Acuminator.Utilities/Roslyn/Semantic/SemanticModel/PXGraph/PXGraphEventSemanticModel.cs:134-159 | A filter by no types keeps nothing. |
| GraphEvents.EmptyCollectionsConcat | src/Acuminator/Acuminator.Utilities/Roslyn/Semantic/SemanticModel/PXGraph/PXGraphEventSemanticModel.cs:161-183 | Concatenating the empty collections gives no events. |
| GraphEvents.NoneModelHasNoEvents | src/Acuminator/Acuminator.Utilities/Roslyn/Semantic/SemanticModel/PXGraph/PXGraphEventSemanticModel.cs:161-183 | A model of kind None answers every per-type query and `GetAllEvents` with no events. |
| DacDefaultAttribute.GetBoundTypeFromDeclaredProperty | src/Acuminator/Acuminator.Analyzers/StaticAnalysis/Dac/DacExtensionDefaultAttribute/DacExtensionDefaultAttributeAnalyzer.cs:187-203 | DbBound iff a bound attribute is present. Unbound iff there is no bound attribute but an unbound one. NotDefined iff neither. |
| DacDefaultAttribute.FirstDefinedBoundType | src/Acuminator/Acuminator.Analyzers/StaticAnalysis/Dac/DacExtensionDefaultAttribute/DacExtensionDefaultAttributeAnalyzer.cs:175-184 | NotDefined iff no declaration in the chain defines a bound type. Otherwise the result is the bound type of the first declaration that defines one. |
| DacDefaultAttribute.DacIgnoresOverrides | src/Acuminator/Acuminator.Analyzers/StaticAnalysis/Dac/DacExtensionDefaultAttribute/DacExtensionDefaultAttributeAnalyzer.cs:169-172 | A DAC property's bound type depends only on its own attributes. |
| DacDefaultAttribute.ExtensionNearestWins | src/Acuminator/Acuminator.Analyzers/StaticAnalysis/Dac/DacExtensionDefaultAttribute/DacExtensionDefaultAttributeAnalyzer.cs:166-185 | An extension property with its own bound or unbound attributes takes that type. Otherwise it inherits the first one defined down its override chain. |
| DacDefaultAttribute.GetPXDefaultAttributeFromAttributes | src/Acuminator/Acuminator.Analyzers/StaticAnalysis/Dac/DacExtensionDefaultAttribute/DacExtensionDefaultAttributeAnalyzer.cs:153-164 | The result is the first attribute derived from PXDefault and not from PXUnboundDefault, or None iff there is no such attribute. |
| DacDefaultAttribute.HasPersistingCheckNothing | src/Acuminator/Acuminator.Analyzers/StaticAnalysis/Dac/DacExtensionDefaultAttribute/DacExtensionDefaultAttributeAnalyzer.cs:145-148 | True iff some named argument is `PersistingCheck` and holds the int 2 (PXPersistingCheck.Nothing). |
| DacDefaultAttribute.GetPXDefaultInfo | src/Acuminator/Acuminator.Analyzers/StaticAnalysis/Dac/DacExtensionDefaultAttribute/DacExtensionDefaultAttributeAnalyzer.cs:135-151 | The attribute is the first default attribute of the declaration. The Nothing flag is set iff that attribute exists and one of its named arguments is PersistingCheck with the int value of Nothing. |
| DacDefaultAttribute.NearestOverriddenDefault | src/Acuminator/Acuminator.Analyzers/StaticAnalysis/Dac/DacExtensionDefaultAttribute/DacExtensionDefaultAttributeAnalyzer.cs:118-130 | None iff no overridden declaration has a default. Otherwise the result is the Nothing flag of the nearest one that has a default. |
| DacDefaultAttribute.InvalidDefaultAgainstOverrides | src/Acuminator/Acuminator.Analyzers/StaticAnalysis/Dac/DacExtensionDefaultAttribute/DacExtensionDefaultAttributeAnalyzer.cs:107-133 | Take an extension's own default that lacks Nothing. It is invalid iff no overridden declaration has a default, or the nearest one with a default has Nothing. |
| DacDefaultAttribute.NearestDefaultUnique | src/Acuminator/Acuminator.Analyzers/StaticAnalysis/Dac/DacExtensionDefaultAttribute/DacExtensionDefaultAttributeAnalyzer.cs:118-130 | At most one overridden declaration is the nearest one with a default. |
| DacDefaultAttribute.InvalidDefaultIsOwn | src/Acuminator/Acuminator.Analyzers/StaticAnalysis/Dac/DacExtensionDefaultAttribute/DacExtensionDefaultAttributeAnalyzer.cs:111-132 | The invalid default is always the property's own default, and that default lacks Nothing. |
| DacDefaultAttribute.AnalyzePropertyDecision | src/Acuminator/Acuminator.Analyzers/StaticAnalysis/Dac/DacExtensionDefaultAttribute/DacExtensionDefaultAttributeAnalyzer.cs:44-105 | A property is reported iff one of two cases holds, in both cases only when the attribute has a location. (1) It is unbound and has a default without Nothing: OnDAC on a DAC, Error on an extension, IsBoundField false. (2) It is a bound property of an extension whose default is invalid: Warning, IsBoundField true. A property with no defined bound type is never reported. |
| DacDefaultAttribute.Analyze | src/Acuminator/Acuminator.Analyzers/StaticAnalysis/Dac/DacExtensionDefaultAttribute/DacExtensionDefaultAttributeAnalyzer.cs:33-42 | The loop reports exactly `Diagnostics`, at most one per property. |
| DacDefaultAttribute.DiagnosticsAreDecisions | src/Acuminator/Acuminator.Analyzers/StaticAnalysis/Dac/DacExtensionDefaultAttribute/DacExtensionDefaultAttributeAnalyzer.cs:33-60 | A diagnostic is reported iff some declared property's decision yields it. |
| DacDefaultAttribute.FlattenMembers | src/Acuminator/Acuminator.Analyzers/StaticAnalysis/Dac/DacExtensionDefaultAttribute/DacExtensionDefaultAttributeAnalyzer.cs:33-42 | A diagnostic is in the flattened list iff some decision in the list is that diagnostic. |
| DacDefaultAttribute.DacReportsAreOnDac | src/Acuminator/Acuminator.Analyzers/StaticAnalysis/Dac/DacExtensionDefaultAttribute/DacExtensionDefaultAttributeAnalyzer.cs:52-80 | Every report on a plain DAC is OnDAC and not a bound field. |
| DacDefaultAttribute.ExtensionBoundTypeScenarios | src/Acuminator/Acuminator.Analyzers/StaticAnalysis/Dac/DacExtensionDefaultAttribute/DacExtensionDefaultAttributeAnalyzer.cs:175-184 | An extension property without attributes over a bound base is DbBound. With an unbound attribute of its own it is Unbound. |
| DacDefaultAttribute.BaseWithNothingReports | src/Acuminator/Acuminator.Analyzers/StaticAnalysis/Dac/DacExtensionDefaultAttribute/DacExtensionDefaultAttributeAnalyzer.cs:107-133 | A base default with Nothing makes the override's default without Nothing a Warning on a bound field. |
| DacDefaultAttribute.BaseWithoutNothingSuppresses | src/Acuminator/Acuminator.Analyzers/StaticAnalysis/Dac/DacExtensionDefaultAttribute/DacExtensionDefaultAttributeAnalyzer.cs:107-133 | A base default without Nothing suppresses the report. |
| DacDefaultAttribute.NearestBaseDecides | src/Acuminator/Acuminator.Analyzers/StaticAnalysis/Dac/DacExtensionDefaultAttribute/DacExtensionDefaultAttributeAnalyzer.cs:118-130 | Only the nearest overridden default decides, not a farther one with Nothing. |
| ChangesClassifier.WhitespaceChangeIsWhitespaceInsertion | src/Acuminator/Acuminator.Vsix/Utils/ChangesClassification/DocumentChangesClassifier.cs:203-204 | A change is a newline-or-whitespace change iff its span is empty and its new text is all whitespace. The newline alternative adds nothing. |
| ChangesClassifier.TriviaRule | src/Acuminator/Acuminator.Vsix/Utils/ChangesClassification/DocumentChangesClassifier.cs:190-210 | The trivia check answers Trivia iff the change is a whitespace insertion whose start lies in the half-open leading or trailing trivia span. |
| ChangesClassifier.Utf16Length | src/Acuminator/Acuminator.Vsix/Utils/ChangesClassification/DocumentChangesClassifier.cs:183-185 | `String.Length` counts UTF-16 code units: between one and two per character, and exactly one per character iff no character lies outside the Basic Multilingual Plane. |
| ChangesClassifier.GetContainingSpanNewContainmentModeForTextChange | src/Acuminator/Acuminator.Vsix/Utils/ChangesClassification/DocumentChangesClassifier.cs:179-188 | StillContaining iff the new text's length in UTF-16 code units is at most the span's end minus the change's start. |
| ChangesClassifier.GetChangeLocationFromTypeMemberNode | src/Acuminator/Acuminator.Vsix/Utils/ChangesClassification/DocumentChangesClassifier.cs:102-121 | A member declaration always gives an answer. |
| ChangesClassifier.MemberBodyRule | src/Acuminator/Acuminator.Vsix/Utils/ChangesClassification/DocumentChangesClassifier.cs:123-177 | The check uses the span (change start, new-text length in UTF-16 code units) and has three outcomes. Attributes iff the span lies in the attribute lists. StatementsBlock iff it lies outside them but in the body. Class iff it lies in neither, or there is no body. |
| ChangesClassifier.ExpressionBodyOnlyForMethodDeclarations | src/Acuminator/Acuminator.Vsix/Utils/ChangesClassification/DocumentChangesClassifier.cs:133-138 | For a method-like member without a block, only a method declaration falls back to its expression body. |
| ChangesClassifier.NodeLocationRule | src/Acuminator/Acuminator.Vsix/Utils/ChangesClassification/DocumentChangesClassifier.cs:74-100 | A statement answers StatementsBlock iff the new text, measured in UTF-16 code units, still fits between the change's start and the statement's end. A member answers with one location other than Namespace. Any other node passes the walk to its parent. |
| ChangesClassifier.SupplementaryCharactersCountTwice | src/Acuminator/Acuminator.Vsix/Utils/ChangesClassification/DocumentChangesClassifier.cs:179-188 | A five-character new text with one character outside the Basic Multilingual Plane is six code units long. A statement with five positions left after the change start then no longer contains the change, and the walk moves on. |
| ChangesClassifier.FirstAnswerRule | src/Acuminator/Acuminator.Vsix/Utils/ChangesClassification/DocumentChangesClassifier.cs:72-93 | The walk gives exactly one location: that of the nearest node that answers, or Namespace iff no node answers. |
| ChangesClassifier.WalkStopsAtMember | src/Acuminator/Acuminator.Vsix/Utils/ChangesClassification/DocumentChangesClassifier.cs:82-93 | With a member declaration among the ancestors, the result is never Namespace. |
| ChangesClassifier.GetTextChangeLocation | src/Acuminator/Acuminator.Vsix/Utils/ChangesClassification/DocumentChangesClassifier.cs:65-94 | The while loop up the ancestors yields `TextChangeLocation`. That is None when no node is found. |
| ChangesClassifier.GetChangesLocationImpl | src/Acuminator/Acuminator.Vsix/Utils/ChangesClassification/DocumentChangesClassifier.cs:48-63 | The accumulating loop yields the OR of the changes' locations. |
| ChangesClassifier.GetChangesLocation | src/Acuminator/Acuminator.Vsix/Utils/ChangesClassification/DocumentChangesClassifier.cs:33-46 | No changes gives None. Otherwise the result is the combined location. |
| ChangesClassifier.ChangesLocationIsUnion | src/Acuminator/Acuminator.Vsix/Utils/ChangesClassification/DocumentChangesClassifier.cs:52-62 | A flag is in the result iff some change's location has it. |
| ChangesClassifier.ChangesLocationOrderIndependent | src/Acuminator/Acuminator.Vsix/Utils/ChangesClassification/DocumentChangesClassifier.cs:52-62 | Two change lists with the same elements give the same location, whatever the order or repeats. |
| SavingChanges.DecisionTable | src/Acuminator/Acuminator.Analyzers/StaticAnalysis/SavingChanges/SavingChangesInEventHandlersAnalyzer.cs:93-128 | Each row of the table holds both ways. Nothing is reported iff the call saves nothing, or it is a cache persist in RowPersisting. RowPersisting is reported iff there is another save in RowPersisting. NonISV is reported iff there is a non-cache save in RowPersisted in an open transaction with ISV analyzers off. Generic is reported for every other save. |
| SavingChanges.TransactionMattersOnlyInRowPersisted | src/Acuminator/Acuminator.Analyzers/StaticAnalysis/SavingChanges/SavingChangesInEventHandlersAnalyzer.cs:112-118 | Outside the RowPersisted, ISV-off, non-cache-save case, the transaction bit does not change the decision. |
| SavingChanges.Walker.constructor | src/Acuminator/Acuminator.Analyzers/StaticAnalysis/SavingChanges/SavingChangesInEventHandlersAnalyzer.cs:36-64 | The walker starts with the transaction closed and no reports. |
| SavingChanges.Walker.Visit | src/Acuminator/Acuminator.Analyzers/StaticAnalysis/SavingChanges/SavingChangesInEventHandlersAnalyzer.cs:66-91 | Visiting a node appends that node's `Walk` reports and leaves the bit that `Walk` computes. |
| SavingChanges.Walker.VisitChildren | src/Acuminator/Acuminator.Analyzers/StaticAnalysis/SavingChanges/SavingChangesInEventHandlersAnalyzer.cs:77-89 | Visiting children in order appends their reports, threading the bit through. |
| SavingChanges.Walker.VisitIfStatement | src/Acuminator/Acuminator.Analyzers/StaticAnalysis/SavingChanges/SavingChangesInEventHandlersAnalyzer.cs:66-79 | An if statement appends its subtree's reports, and afterwards the bit is off. |
| SavingChanges.Walker.VisitInvocationExpression | src/Acuminator/Acuminator.Analyzers/StaticAnalysis/SavingChanges/SavingChangesInEventHandlersAnalyzer.cs:81-91 | An invocation appends its `Walk` reports: its own report, or its children's when it is not reported. |
| SavingChanges.Analyze | src/Acuminator/Acuminator.Analyzers/StaticAnalysis/SavingChanges/SavingChangesInEventHandlersAnalyzer.cs:22-29 | A handler without syntax gets no reports. Otherwise its reports are those of the walk from a closed transaction. |
| SavingChanges.ReportsAtMostOnePerInvocation | src/Acuminator/Acuminator.Analyzers/StaticAnalysis/SavingChanges/SavingChangesInEventHandlersAnalyzer.cs:87-123 | A walk reports no more diagnostics than the tree has invocations. |
| SavingChanges.ReportsAtMostOnePerInvocationIn | src/Acuminator/Acuminator.Analyzers/StaticAnalysis/SavingChanges/SavingChangesInEventHandlersAnalyzer.cs:87-123 | The same bound for a list of sibling nodes. |
| SavingChanges.TransactionStateDoesNotLeak | src/Acuminator/Acuminator.Analyzers/StaticAnalysis/SavingChanges/SavingChangesInEventHandlersAnalyzer.cs:66-79 | Walking a node never turns the bit on, and after an if statement it is always off. |
| SavingChanges.TransactionStateDoesNotLeakIn | src/Acuminator/Acuminator.Analyzers/StaticAnalysis/SavingChanges/SavingChangesInEventHandlersAnalyzer.cs:66-79 | The same for a list of sibling nodes. |
| SavingChanges.NonISVNeedsTranStatusCheck | src/Acuminator/Acuminator.Analyzers/StaticAnalysis/SavingChanges/SavingChangesInEventHandlersAnalyzer.cs:70-118 | Without an `e.TranStatus == PXTranStatus.Open` condition, a walk from a closed transaction never reports NonISV. |
| SavingChanges.NonISVNeedsTranStatusCheckIn | src/Acuminator/Acuminator.Analyzers/StaticAnalysis/SavingChanges/SavingChangesInEventHandlersAnalyzer.cs:70-118 | The same for a list of sibling nodes. |
| SavingChanges.TransactionScope | src/Acuminator/Acuminator.Analyzers/StaticAnalysis/SavingChanges/SavingChangesInEventHandlersAnalyzer.cs:66-91 | A transaction-status if walks its children with the bit on and leaves it off. An unresolved invocation, or one that saves nothing, is descended into. |
| SavingChanges.CachePersistInRowPersistingIsDescended | src/Acuminator/Acuminator.Analyzers/StaticAnalysis/SavingChanges/SavingChangesInEventHandlersAnalyzer.cs:87-111 | A cache persist in RowPersisting is not reported, and its children are walked. |

## Left out

- Roslyn lookups are inputs, not models. This covers symbol and syntax lookups (`IsPXGraph`, `GetDeclaredInstanceConstructors`, `GetGraphExtensionInitialization`, `GetEventHandlerInfo`, `ContainsBoundAttributes`, `IsAttributeDerivedFromClass`, `SaveOperationHelper`, `FindNode`, `GetTextChangesAsync`, `IsEquivalentTo`, `GetAttributeLocation`). Their answers are fields of the datatypes or function parameters.
- `InstanceCreatedEventsAddHandlerWalker` and `GetInitDelegates` (PXGraphSemanticModel.cs:119-177) are replaced by their result: the delegates in discovery order.
- `StaticCtrInfo` (PXGraphSemanticModel.cs:31) is not modelled. No other member of the core reads it.
- `PXGraphEventSemanticModel.InferModels` and `EnrichGraphModelWithEvents` (PXGraphEventSemanticModel.cs:186-199) are not modelled. They map the event-model constructor over the base models.
- EventsCollector and OverridableItemsCollection are not part of this model. Each per-type collection is modelled as the declaration-ordered list of accepted handlers of that type. Keying by name and merging overridden handlers across layers are not modelled.
- GraphEvents.GraphEventSemanticModel.GetEventsByEventType: its contract only states the None case. Each collection's contents are stated by `GraphEvents.CollectionOfType`.
- `IsDacRowEvent` and `IsDacFieldEvent` are not part of this model. They are defined here by the ten row and eight field collections of the event model.
- Method names are non-empty strings, because the source indexes `Name[0]`.
- `Environment.NewLine` is taken as `"\r\n"`, the Windows value. Any newline made of whitespace gives the same result.
- `ChangeLocation` is a set of flags; the numeric values of the flags are not modelled.
- Cancellation checks, `ThrowOnNull` argument checks and `ConfigureAwait` are not modelled.
- `Diagnostic.Create`, the diagnostic properties dictionary beyond IsBoundField, and suppression in `ReportDiagnosticWithSuppressionCheck` are not modelled. A report is a descriptor, a location and the IsBoundField flag.
- The `NestedInvocationWalker` base class is not part of this model. The PX1043 walker descends into an invocation's syntactic children only, not into the bodies of called methods.
- `SymbolAnalyzersAggregator`, `PublicClassXMLCommentAnalyzer`, `IPXGraphAnalyzer` and `StartLongOperationDelegateWalker` are outside this model. They are parallel fan-out, registration plumbing, or walkers whose base classes are not part of it.
