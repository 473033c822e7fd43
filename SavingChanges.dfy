/**
 * The PX1043 analysis of event handlers (SavingChangesInEventHandlersAnalyzer):
 * a walker over a handler's syntax that reports calls saving changes, with a
 * one-bit "transaction opened" state that `if (e.TranStatus == PXTranStatus.Open)`
 * sets for the statements it guards.
 *
 * The syntax of the handler is a tree of if statements, invocations and other
 * nodes. What the semantic lookups answer about an invocation (its resolved
 * method, the save-operation kind and the database kind of that method) and
 * whether an if condition is equivalent to the transaction-status check are
 * given with the node.
 */
module SavingChanges {
  import opened Common
  import opened EventTypes

  /** The kind of save a called method performs; None for a method that saves nothing. */
  datatype SaveOperationKind = None | CachePersist | OtherSaveOperation

  /** The kind of direct database operation a called method performs; None for none. */
  datatype PXDatabaseKind = None | DatabaseOperation

  datatype Descriptor =
    | SavingChangesInEventHandlers
    | SavingChangesInRowPersisting
    | SavingChangesInRowPersistedNonISV

  /** What the lookups answer for an invocation whose method symbol resolves. */
  datatype ResolvedCall = ResolvedCall(saveKind: SaveOperationKind, databaseKind: PXDatabaseKind)

  datatype Syntax =
    | IfStatement(isTranStatusOpenCheck: bool, children: seq<Syntax>)
    | Invocation(call: Option<ResolvedCall>, location: nat, children: seq<Syntax>)
    | OtherSyntax(children: seq<Syntax>)

  datatype Report = Report(descriptor: Descriptor, location: nat)

  // ---------------------------------------------------------------------------
  // The decision for one invocation
  // ---------------------------------------------------------------------------

  predicate IsSaving(saveKind: SaveOperationKind, databaseKind: PXDatabaseKind)
  {
    saveKind != SaveOperationKind.None || databaseKind != PXDatabaseKind.None
  }

  /** The descriptor reported for a call, or None when the call is not reported (AnalyzeAndReportDiagnostic returns false). */
  function AnalyzeAndReportDiagnostic(eventType: EventType, isvSpecificAnalyzersEnabled: bool, isTransactionOpened: bool,
                                      saveKind: SaveOperationKind, databaseKind: PXDatabaseKind): Option<Descriptor>
  {
    if IsSaving(saveKind, databaseKind) then
      if eventType == RowPersisting then
        if saveKind != CachePersist then Some(SavingChangesInRowPersisting) else Option.None
      else if !isvSpecificAnalyzersEnabled && isTransactionOpened && eventType == RowPersisted && saveKind != CachePersist then
        Some(SavingChangesInRowPersistedNonISV)
      else Some(SavingChangesInEventHandlers)
    else Option.None
  }

  /**
   * The decision table, each row both ways: nothing is reported for a call that
   * saves nothing or for a cache persist in RowPersisting; the RowPersisting
   * descriptor exactly for other saves in RowPersisting; the non-ISV
   * descriptor exactly for a non-cache save in RowPersisted inside an open
   * transaction with ISV analyzers disabled; the generic one for every other save.
   */
  lemma DecisionTable(eventType: EventType, isv: bool, tranOpen: bool, saveKind: SaveOperationKind, databaseKind: PXDatabaseKind)
    ensures var d := AnalyzeAndReportDiagnostic(eventType, isv, tranOpen, saveKind, databaseKind);
      && (d.None? <==> !IsSaving(saveKind, databaseKind) || (eventType == RowPersisting && saveKind == CachePersist))
      && (d == Some(SavingChangesInRowPersisting) <==>
           IsSaving(saveKind, databaseKind) && eventType == RowPersisting && saveKind != CachePersist)
      && (d == Some(SavingChangesInRowPersistedNonISV) <==>
           IsSaving(saveKind, databaseKind) && !isv && tranOpen && eventType == RowPersisted && saveKind != CachePersist)
      && (d == Some(SavingChangesInEventHandlers) <==>
           IsSaving(saveKind, databaseKind) && eventType != RowPersisting
           && !(!isv && tranOpen && eventType == RowPersisted && saveKind != CachePersist))
  {
  }

  /** The transaction state matters only for RowPersisted: elsewhere the decision ignores it. */
  lemma TransactionMattersOnlyInRowPersisted(eventType: EventType, isv: bool, saveKind: SaveOperationKind, databaseKind: PXDatabaseKind)
    requires eventType != RowPersisted || isv || saveKind == CachePersist
    ensures AnalyzeAndReportDiagnostic(eventType, isv, true, saveKind, databaseKind)
         == AnalyzeAndReportDiagnostic(eventType, isv, false, saveKind, databaseKind)
  {
  }

  // ---------------------------------------------------------------------------
  // The walk
  // ---------------------------------------------------------------------------

  datatype WalkResult = WalkResult(reports: seq<Report>, isTransactionOpened: bool)

  /** The reports of visiting a node with the given transaction state, and the state afterwards. */
  function Walk(eventType: EventType, isv: bool, node: Syntax, tranOpen: bool): WalkResult
    decreases node, 1
  {
    match node
    case IfStatement(isCheck, children) =>
      var inside := if !tranOpen && isCheck then true else tranOpen;
      WalkResult(WalkChildren(eventType, isv, children, inside).reports, false)
    case Invocation(call, location, children) =>
      var d := if call.Some? then AnalyzeAndReportDiagnostic(eventType, isv, tranOpen, call.value.saveKind, call.value.databaseKind)
               else Option.None;
      if d.Some? then WalkResult([Report(d.value, location)], tranOpen)
      else WalkChildren(eventType, isv, children, tranOpen)
    case OtherSyntax(children) => WalkChildren(eventType, isv, children, tranOpen)
  }

  function WalkChildren(eventType: EventType, isv: bool, nodes: seq<Syntax>, tranOpen: bool): WalkResult
    decreases nodes, 0
  {
    if nodes == [] then WalkResult([], tranOpen)
    else
      var first := Walk(eventType, isv, nodes[0], tranOpen);
      var rest := WalkChildren(eventType, isv, nodes[1..], first.isTransactionOpened);
      WalkResult(first.reports + rest.reports, rest.isTransactionOpened)
  }

  /** The walker over one handler's syntax; it reports into `reports`. */
  class Walker {
    const eventType: EventType
    const isvSpecificAnalyzersEnabled: bool
    var isTransactionOpened: bool
    var reports: seq<Report>

    constructor(eventType: EventType, isvSpecificAnalyzersEnabled: bool)
      ensures this.eventType == eventType && this.isvSpecificAnalyzersEnabled == isvSpecificAnalyzersEnabled
      ensures !isTransactionOpened && reports == []
    {
      this.eventType := eventType;
      this.isvSpecificAnalyzersEnabled := isvSpecificAnalyzersEnabled;
      isTransactionOpened := false;
      reports := [];
    }

    method Visit(node: Syntax)
      modifies this
      ensures var r := Walk(eventType, isvSpecificAnalyzersEnabled, node, old(isTransactionOpened));
        reports == old(reports) + r.reports && isTransactionOpened == r.isTransactionOpened
      decreases node, 2
    {
      match node {
        case IfStatement(_, _) => VisitIfStatement(node);
        case Invocation(_, _, _) => VisitInvocationExpression(node);
        case OtherSyntax(children) => VisitChildren(children);
      }
    }

    method VisitChildren(nodes: seq<Syntax>)
      modifies this
      ensures var r := WalkChildren(eventType, isvSpecificAnalyzersEnabled, nodes, old(isTransactionOpened));
        reports == old(reports) + r.reports && isTransactionOpened == r.isTransactionOpened
      decreases nodes, 0
    {
      ghost var whole := WalkChildren(eventType, isvSpecificAnalyzersEnabled, nodes, isTransactionOpened);
      ghost var start := reports;
      for k := 0 to |nodes|
        invariant var rest := WalkChildren(eventType, isvSpecificAnalyzersEnabled, nodes[k..], isTransactionOpened);
          reports + rest.reports == start + whole.reports && rest.isTransactionOpened == whole.isTransactionOpened
      {
        assert nodes[k..][1..] == nodes[k + 1..];
        ghost var before, tranBefore := reports, isTransactionOpened;
        ghost var first := Walk(eventType, isvSpecificAnalyzersEnabled, nodes[k], tranBefore);
        ghost var rest := WalkChildren(eventType, isvSpecificAnalyzersEnabled, nodes[k + 1..], first.isTransactionOpened);
        assert WalkChildren(eventType, isvSpecificAnalyzersEnabled, nodes[k..], tranBefore).reports == first.reports + rest.reports;
        Visit(nodes[k]);
        assert before + (first.reports + rest.reports) == reports + rest.reports;
      }
    }

    method VisitIfStatement(node: Syntax)
      requires node.IfStatement?
      modifies this
      ensures reports == old(reports) + Walk(eventType, isvSpecificAnalyzersEnabled, node, old(isTransactionOpened)).reports
      ensures !isTransactionOpened
      decreases node, 1
    {
      if isTransactionOpened == false {
        if node.isTranStatusOpenCheck {
          isTransactionOpened := true;
        }
      }
      VisitChildren(node.children);
      isTransactionOpened := false;
    }

    method VisitInvocationExpression(node: Syntax)
      requires node.Invocation?
      modifies this
      ensures var r := Walk(eventType, isvSpecificAnalyzersEnabled, node, old(isTransactionOpened));
        reports == old(reports) + r.reports && isTransactionOpened == r.isTransactionOpened
      decreases node, 1
    {
      var reported := false;
      if node.call.Some? {
        var d := AnalyzeAndReportDiagnostic(eventType, isvSpecificAnalyzersEnabled, isTransactionOpened,
                                            node.call.value.saveKind, node.call.value.databaseKind);
        if d.Some? {
          reports := reports + [Report(d.value, node.location)];
          reported := true;
        }
      }
      if !reported {
        VisitChildren(node.children);
      }
    }
  }

  /** Analyze: walks the handler's syntax, when it has any, starting outside any transaction. */
  method Analyze(eventType: EventType, isvSpecificAnalyzersEnabled: bool, methodSyntax: Option<Syntax>)
    returns (reports: seq<Report>)
    ensures methodSyntax.None? ==> reports == []
    ensures methodSyntax.Some? ==> reports == Walk(eventType, isvSpecificAnalyzersEnabled, methodSyntax.value, false).reports
  {
    if methodSyntax.None? {
      return [];
    }
    var walker := new Walker(eventType, isvSpecificAnalyzersEnabled);
    walker.Visit(methodSyntax.value);
    reports := walker.reports;
  }

  // ---------------------------------------------------------------------------
  // Properties of the walk
  // ---------------------------------------------------------------------------

  function CountInvocations(node: Syntax): nat
    decreases node, 1
  {
    match node
    case IfStatement(_, children) => CountInvocationsIn(children)
    case Invocation(_, _, children) => 1 + CountInvocationsIn(children)
    case OtherSyntax(children) => CountInvocationsIn(children)
  }

  function CountInvocationsIn(nodes: seq<Syntax>): nat
    decreases nodes, 0
  {
    if nodes == [] then 0 else CountInvocations(nodes[0]) + CountInvocationsIn(nodes[1..])
  }

  /** At most one diagnostic per invocation: a reported call's arguments and nested calls are not visited. */
  lemma {:induction false} ReportsAtMostOnePerInvocation(eventType: EventType, isv: bool, node: Syntax, tranOpen: bool)
    ensures |Walk(eventType, isv, node, tranOpen).reports| <= CountInvocations(node)
    decreases node, 1
  {
    match node {
      case IfStatement(isCheck, children) =>
        ReportsAtMostOnePerInvocationIn(eventType, isv, children, if !tranOpen && isCheck then true else tranOpen);
      case Invocation(_, _, children) =>
        ReportsAtMostOnePerInvocationIn(eventType, isv, children, tranOpen);
      case OtherSyntax(children) =>
        ReportsAtMostOnePerInvocationIn(eventType, isv, children, tranOpen);
    }
  }

  lemma {:induction false} ReportsAtMostOnePerInvocationIn(eventType: EventType, isv: bool, nodes: seq<Syntax>, tranOpen: bool)
    ensures |WalkChildren(eventType, isv, nodes, tranOpen).reports| <= CountInvocationsIn(nodes)
    decreases nodes, 0
  {
    if nodes != [] {
      var first := Walk(eventType, isv, nodes[0], tranOpen);
      ReportsAtMostOnePerInvocation(eventType, isv, nodes[0], tranOpen);
      ReportsAtMostOnePerInvocationIn(eventType, isv, nodes[1..], first.isTransactionOpened);
    }
  }

  /** The transaction state never leaks out of an if statement: walking a node never turns it on. */
  lemma {:induction false} TransactionStateDoesNotLeak(eventType: EventType, isv: bool, node: Syntax, tranOpen: bool)
    ensures Walk(eventType, isv, node, tranOpen).isTransactionOpened ==> tranOpen
    ensures node.IfStatement? ==> !Walk(eventType, isv, node, tranOpen).isTransactionOpened
    decreases node, 1
  {
    match node {
      case IfStatement(_, _) =>
      case Invocation(call, _, children) =>
        TransactionStateDoesNotLeakIn(eventType, isv, children, tranOpen);
      case OtherSyntax(children) =>
        TransactionStateDoesNotLeakIn(eventType, isv, children, tranOpen);
    }
  }

  lemma {:induction false} TransactionStateDoesNotLeakIn(eventType: EventType, isv: bool, nodes: seq<Syntax>, tranOpen: bool)
    ensures WalkChildren(eventType, isv, nodes, tranOpen).isTransactionOpened ==> tranOpen
    decreases nodes, 0
  {
    if nodes != [] {
      var first := Walk(eventType, isv, nodes[0], tranOpen);
      TransactionStateDoesNotLeak(eventType, isv, nodes[0], tranOpen);
      TransactionStateDoesNotLeakIn(eventType, isv, nodes[1..], first.isTransactionOpened);
    }
  }

  /** Whether some if statement of the tree has the transaction-status condition. */
  predicate HasTranStatusCheck(node: Syntax)
    decreases node, 1
  {
    match node
    case IfStatement(isCheck, children) => isCheck || HasTranStatusCheckIn(children)
    case Invocation(_, _, children) => HasTranStatusCheckIn(children)
    case OtherSyntax(children) => HasTranStatusCheckIn(children)
  }

  predicate HasTranStatusCheckIn(nodes: seq<Syntax>)
    decreases nodes, 0
  {
    nodes != [] && (HasTranStatusCheck(nodes[0]) || HasTranStatusCheckIn(nodes[1..]))
  }

  /** Without an `e.TranStatus == PXTranStatus.Open` condition, a handler never gets the non-ISV descriptor. */
  lemma {:induction false} NonISVNeedsTranStatusCheck(eventType: EventType, isv: bool, node: Syntax)
    requires !HasTranStatusCheck(node)
    ensures !Walk(eventType, isv, node, false).isTransactionOpened
    ensures forall r :: r in Walk(eventType, isv, node, false).reports ==> r.descriptor != SavingChangesInRowPersistedNonISV
    decreases node, 1
  {
    match node {
      case IfStatement(_, children) =>
        NonISVNeedsTranStatusCheckIn(eventType, isv, children);
      case Invocation(call, _, children) =>
        NonISVNeedsTranStatusCheckIn(eventType, isv, children);
      case OtherSyntax(children) =>
        NonISVNeedsTranStatusCheckIn(eventType, isv, children);
    }
  }

  lemma {:induction false} NonISVNeedsTranStatusCheckIn(eventType: EventType, isv: bool, nodes: seq<Syntax>)
    requires !HasTranStatusCheckIn(nodes)
    ensures !WalkChildren(eventType, isv, nodes, false).isTransactionOpened
    ensures forall r :: r in WalkChildren(eventType, isv, nodes, false).reports ==> r.descriptor != SavingChangesInRowPersistedNonISV
    decreases nodes, 0
  {
    if nodes != [] {
      NonISVNeedsTranStatusCheck(eventType, isv, nodes[0]);
      NonISVNeedsTranStatusCheckIn(eventType, isv, nodes[1..]);
    }
  }

  /**
   * An if statement with the transaction-status condition opens the
   * transaction for what it guards, outside it the state is closed again,
   * and an invocation that saves nothing is descended into.
   */
  lemma TransactionScope(eventType: EventType, isv: bool, children: seq<Syntax>, location: nat, tranOpen: bool)
    ensures Walk(eventType, isv, IfStatement(true, children), tranOpen).reports == WalkChildren(eventType, isv, children, true).reports
    ensures !Walk(eventType, isv, IfStatement(true, children), tranOpen).isTransactionOpened
    ensures Walk(eventType, isv, Invocation(Some(ResolvedCall(SaveOperationKind.None, PXDatabaseKind.None)), location, children), tranOpen)
         == WalkChildren(eventType, isv, children, tranOpen)
    ensures Walk(eventType, isv, Invocation(Option.None, location, children), tranOpen) == WalkChildren(eventType, isv, children, tranOpen)
  {
  }

  /** A cache persist in RowPersisting is not reported, so the walker looks inside its arguments. */
  lemma CachePersistInRowPersistingIsDescended(isv: bool, children: seq<Syntax>, location: nat, tranOpen: bool,
                                               databaseKind: PXDatabaseKind)
    ensures Walk(RowPersisting, isv, Invocation(Some(ResolvedCall(CachePersist, databaseKind)), location, children), tranOpen)
         == WalkChildren(RowPersisting, isv, children, tranOpen)
  {
  }
}
