/**
 * Classification of the text changes between two versions of a document
 * (DocumentChangesClassifier): each change is located by walking up from the
 * syntax node that contains it in the old tree, and the locations of all the
 * changes are combined as flags.
 *
 * The flags enum ChangeLocation is modelled as the set of its flags: None is
 * the empty set and bitwise OR is union. The old syntax tree enters as the
 * function `findNode`: for a span it gives None when the tree has no node for
 * it, or the found node followed by its ancestors, nearest first, up to but
 * excluding the compilation unit.
 */
module ChangesClassifier {
  import opened Common

  /** Roslyn's TextSpan: a start position and a length, both counted in UTF-16 code units. */
  datatype TextSpan = TextSpan(start: nat, length: nat)
  {
    function End(): nat { start + length }

    predicate IsEmpty() { length == 0 }

    /** Contains(TextSpan): the other span lies within this one, ends included. */
    predicate ContainsSpan(other: TextSpan) { start <= other.start && other.End() <= End() }

    /** Contains(int): the position lies in the half-open range [Start, End). */
    predicate ContainsPosition(position: int) { start <= position < End() }
  }

  datatype TextChange = TextChange(span: TextSpan, newText: string)

  datatype ChangeKind = Trivia | Attributes | StatementsBlock | Class | Namespace

  type ChangeLocation = set<ChangeKind>

  datatype ContainmentModeChange = StillContaining | NotContaining

  /** The syntactic shape of a member declaration, as far as the classifier looks at it. */
  datatype MemberShape =
    | BaseMethod(attributeLists: TextSpan, body: Option<TextSpan>, expressionBody: Option<TextSpan>,
                 isMethodDeclaration: bool)
    | BaseProperty(attributeLists: TextSpan, accessorList: Option<TextSpan>, expressionBody: Option<TextSpan>,
                   isPropertyOrIndexer: bool)
    | OtherMember

  datatype NodeKind = Statement | MemberDeclaration(shape: MemberShape) | OtherNode

  datatype SyntaxNode = SyntaxNode(kind: NodeKind, span: TextSpan, leadingTrivia: TextSpan, trailingTrivia: TextSpan)

  // ---------------------------------------------------------------------------
  // Whitespace changes
  // ---------------------------------------------------------------------------

  /** .NET char.IsWhiteSpace: the Unicode space, line and paragraph separators and the control whitespace. */
  predicate IsWhiteSpace(c: char)
  {
    c == ' ' || c == '\t' || c == '\n' || c == '\U{000B}' || c == '\U{000C}' || c == '\r'
    || c == '\U{0085}' || c == '\U{00A0}' || c == '\U{1680}' || ('\U{2000}' <= c <= '\U{200A}')
    || c == '\U{2028}' || c == '\U{2029}' || c == '\U{202F}' || c == '\U{205F}' || c == '\U{3000}'
  }

  /** string.IsNullOrWhiteSpace for a non-null string: every character is whitespace. */
  predicate IsNullOrWhiteSpace(s: string)
  {
    forall i :: 0 <= i < |s| ==> IsWhiteSpace(s[i])
  }

  /** Environment.NewLine on the Windows host of the extension. */
  const NewLine: string := "\r\n"

  predicate IsNewLineOrWhitespaceChange(change: TextChange)
  {
    change.span.IsEmpty() && (change.newText == NewLine || IsNullOrWhiteSpace(change.newText))
  }

  /** The newline test adds nothing: a whitespace change is an insertion made only of whitespace. */
  lemma WhitespaceChangeIsWhitespaceInsertion(change: TextChange)
    ensures IsNewLineOrWhitespaceChange(change) <==> change.span.length == 0 && IsNullOrWhiteSpace(change.newText)
  {
  }

  function GetNewLineOrWhitespaceChangeLocationFromTriviaList(trivia: TextSpan, change: TextChange): Option<ChangeLocation>
  {
    if trivia.ContainsPosition(change.span.start) then Some({Trivia}) else Option.None
  }

  function GetChangeLocationFromNodeTrivia(node: SyntaxNode, change: TextChange): Option<ChangeLocation>
  {
    if !IsNewLineOrWhitespaceChange(change) then Option.None
    else
      var leading := GetNewLineOrWhitespaceChangeLocationFromTriviaList(node.leadingTrivia, change);
      if leading.Some? then leading
      else GetNewLineOrWhitespaceChangeLocationFromTriviaList(node.trailingTrivia, change)
  }

  /** The trivia check answers Trivia exactly for a whitespace insertion inside the leading or trailing trivia. */
  lemma TriviaRule(node: SyntaxNode, change: TextChange)
    ensures var r := GetChangeLocationFromNodeTrivia(node, change);
      && (r.Some? <==> IsNewLineOrWhitespaceChange(change)
                       && (node.leadingTrivia.ContainsPosition(change.span.start)
                           || node.trailingTrivia.ContainsPosition(change.span.start)))
      && (r.Some? ==> r.value == {Trivia})
  {
  }

  // ---------------------------------------------------------------------------
  // Containment
  // ---------------------------------------------------------------------------

  /**
   * String.Length: positions and lengths are counted in UTF-16 code units,
   * so a character outside the Basic Multilingual Plane counts twice.
   */
  function Utf16Length(s: string): (n: nat)
    ensures |s| <= n <= 2 * |s|
    ensures n == |s| <==> forall i :: 0 <= i < |s| ==> s[i] < '\U{10000}'
  {
    if s == [] then 0
    else
      var rest := Utf16Length(s[1..]);
      assert forall i :: 1 <= i < |s| ==> s[i] == s[1..][i - 1];
      (if s[0] < '\U{10000}' then 1 else 2) + rest
  }

  /** Whether a span that contained the changed range still contains it once the new text is in. */
  function GetContainingSpanNewContainmentModeForTextChange(change: TextChange, containingSpan: TextSpan): (r: ContainmentModeChange)
    ensures r == StillContaining <==> Utf16Length(change.newText) <= containingSpan.End() - change.span.start
  {
    var lengthFromChangeStart := containingSpan.End() - change.span.start;
    var newTextLength := Utf16Length(change.newText);
    if newTextLength == lengthFromChangeStart then StillContaining
    else if lengthFromChangeStart < newTextLength then NotContaining
    else StillContaining
  }

  /** The span the new text occupies: it starts where the change starts. */
  function SpanToCheck(change: TextChange): TextSpan
  {
    TextSpan(change.span.start, Utf16Length(change.newText))
  }

  // ---------------------------------------------------------------------------
  // Node classifiers
  // ---------------------------------------------------------------------------

  function GetChangeLocationFromStatementNode(mode: ContainmentModeChange): Option<ChangeLocation>
  {
    if mode == StillContaining then Some({StatementsBlock}) else Option.None
  }

  /** Attributes if the new text lies in the attribute lists, else StatementsBlock if in the body, else Class. */
  function ClassifyAgainstBody(attributeLists: TextSpan, bodySpan: Option<TextSpan>, change: TextChange): ChangeLocation
  {
    var spanToCheck := SpanToCheck(change);
    if attributeLists.ContainsSpan(spanToCheck) then {Attributes}
    else if bodySpan.None? then {Class}
    else if bodySpan.value.ContainsSpan(spanToCheck) then {StatementsBlock}
    else {Class}
  }

  /** The body of a method-like member: its block, or for a method declaration only, its expression body. */
  function MethodBodySpan(shape: MemberShape): Option<TextSpan>
    requires shape.BaseMethod?
  {
    if shape.body.Some? then shape.body
    else if shape.isMethodDeclaration then shape.expressionBody
    else Option.None
  }

  /** The body of a property-like member: its accessor list, or for a property or indexer, its expression body. */
  function PropertyBodySpan(shape: MemberShape): Option<TextSpan>
    requires shape.BaseProperty?
  {
    if shape.accessorList.Some? then shape.accessorList
    else if shape.isPropertyOrIndexer then shape.expressionBody
    else Option.None
  }

  function GetChangeLocationFromMethodBaseSyntaxNode(shape: MemberShape, change: TextChange): ChangeLocation
    requires shape.BaseMethod?
  {
    ClassifyAgainstBody(shape.attributeLists, MethodBodySpan(shape), change)
  }

  function GetChangeLocationFromPropertyBaseSyntaxNode(shape: MemberShape, change: TextChange): ChangeLocation
    requires shape.BaseProperty?
  {
    ClassifyAgainstBody(shape.attributeLists, PropertyBodySpan(shape), change)
  }

  /** A member declaration: trivia first, then by the member's shape; never without an answer. */
  function GetChangeLocationFromTypeMemberNode(node: SyntaxNode, change: TextChange): (r: Option<ChangeLocation>)
    requires node.kind.MemberDeclaration?
    ensures r.Some?
  {
    var trivia := GetChangeLocationFromNodeTrivia(node, change);
    if trivia.Some? then trivia
    else match node.kind.shape
      case BaseMethod(_, _, _, _) => Some(GetChangeLocationFromMethodBaseSyntaxNode(node.kind.shape, change))
      case BaseProperty(_, _, _, _) => Some(GetChangeLocationFromPropertyBaseSyntaxNode(node.kind.shape, change))
      case OtherMember => Some({Class})
  }

  /** The answer of one node on the way up, or None to move on to its parent. */
  function NodeLocation(node: SyntaxNode, change: TextChange): Option<ChangeLocation>
  {
    var mode := GetContainingSpanNewContainmentModeForTextChange(change, node.span);
    match node.kind
    case Statement => GetChangeLocationFromStatementNode(mode)
    case MemberDeclaration(_) => GetChangeLocationFromTypeMemberNode(node, change)
    case OtherNode => Option.None
  }

  /**
   * Members that are methods or properties: Attributes exactly when the new
   * text lies within the attribute lists, StatementsBlock exactly when it lies
   * outside them but within the body, Class otherwise.
   */
  lemma MemberBodyRule(node: SyntaxNode, change: TextChange)
    requires node.kind.MemberDeclaration? && (node.kind.shape.BaseMethod? || node.kind.shape.BaseProperty?)
    requires GetChangeLocationFromNodeTrivia(node, change).None?
    ensures var shape := node.kind.shape;
      var body := if shape.BaseMethod? then MethodBodySpan(shape) else PropertyBodySpan(shape);
      var r := NodeLocation(node, change).value;
      && (r == {Attributes} <==> shape.attributeLists.ContainsSpan(SpanToCheck(change)))
      && (r == {StatementsBlock} <==>
           !shape.attributeLists.ContainsSpan(SpanToCheck(change)) && body.Some? && body.value.ContainsSpan(SpanToCheck(change)))
      && (r == {Class} <==>
           !shape.attributeLists.ContainsSpan(SpanToCheck(change)) && (body.None? || !body.value.ContainsSpan(SpanToCheck(change))))
  {
  }

  /** Only a method declaration falls back to its expression body: a constructor or operator without a block is Class. */
  lemma ExpressionBodyOnlyForMethodDeclarations(attributeLists: TextSpan, expressionBody: TextSpan, change: TextChange)
    requires !attributeLists.ContainsSpan(SpanToCheck(change)) && expressionBody.ContainsSpan(SpanToCheck(change))
    ensures GetChangeLocationFromMethodBaseSyntaxNode(BaseMethod(attributeLists, Option.None, Some(expressionBody), true), change)
            == {StatementsBlock}
    ensures GetChangeLocationFromMethodBaseSyntaxNode(BaseMethod(attributeLists, Option.None, Some(expressionBody), false), change)
            == {Class}
  {
  }

  /**
   * One node's answer: a statement answers StatementsBlock iff it still
   * contains the change; a member always answers, with one location that is
   * never Namespace; any other node moves the walk on.
   */
  lemma NodeLocationRule(node: SyntaxNode, change: TextChange)
    ensures node.kind.Statement? ==>
      (NodeLocation(node, change).Some? <==> Utf16Length(change.newText) <= node.span.End() - change.span.start)
      && (NodeLocation(node, change).Some? ==> NodeLocation(node, change).value == {StatementsBlock})
    ensures node.kind.MemberDeclaration? ==>
      NodeLocation(node, change).Some? && |NodeLocation(node, change).value| == 1
      && Namespace !in NodeLocation(node, change).value
    ensures node.kind.OtherNode? ==> NodeLocation(node, change).None?
  {
    if node.kind.MemberDeclaration? {
      var r := NodeLocation(node, change).value;
      assert r == {Trivia} || r == {Attributes} || r == {StatementsBlock} || r == {Class};
    }
  }

  /**
   * New text with a character outside the Basic Multilingual Plane: five
   * characters but six code units, so a statement with five positions left
   * after the change start no longer contains it and the walk moves on.
   */
  lemma SupplementaryCharactersCountTwice()
    ensures var change := TextChange(TextSpan(15, 0), "ab\U{1F600}cd");
      && |change.newText| == 5 && Utf16Length(change.newText) == 6
      && NodeLocation(SyntaxNode(Statement, TextSpan(10, 10), TextSpan(10, 0), TextSpan(20, 0)), change).None?
  {
    var text := "ab\U{1F600}cd";
    assert text[1..] == "b\U{1F600}cd" && text[1..][1..] == "\U{1F600}cd";
    assert Utf16Length("\U{1F600}cd") == 4 by {
      assert "\U{1F600}cd"[1..] == "cd";
      assert Utf16Length("cd") == 2;
    }
  }

  // ---------------------------------------------------------------------------
  // One change
  // ---------------------------------------------------------------------------

  /** The answer of the nearest node that answers; Namespace when the walk reaches the compilation unit. */
  function FirstAnswer(ancestors: seq<SyntaxNode>, change: TextChange): ChangeLocation
  {
    if ancestors == [] then {Namespace}
    else
      var r := NodeLocation(ancestors[0], change);
      if r.Some? then r.value else FirstAnswer(ancestors[1..], change)
  }

  /** The location of one change: None when the old tree has no node for its span. */
  function TextChangeLocation(change: TextChange, findNode: TextSpan -> Option<seq<SyntaxNode>>): ChangeLocation
  {
    match findNode(change.span)
    case None => {}
    case Some(ancestors) => FirstAnswer(ancestors, change)
  }

  method GetTextChangeLocation(change: TextChange, findNode: TextSpan -> Option<seq<SyntaxNode>>)
    returns (location: ChangeLocation)
    ensures location == TextChangeLocation(change, findNode)
  {
    var found := findNode(change.span);
    if found.None? {
      return {};
    }
    var ancestors := found.value;
    var k := 0;
    while k < |ancestors|
      invariant k <= |ancestors|
      invariant FirstAnswer(ancestors[k..], change) == TextChangeLocation(change, findNode)
    {
      assert ancestors[k..][1..] == ancestors[k + 1..];
      var node := ancestors[k];
      var mode := GetContainingSpanNewContainmentModeForTextChange(change, node.span);
      var changesLocation: Option<ChangeLocation> := Option.None;
      match node.kind {
        case Statement =>
          changesLocation := GetChangeLocationFromStatementNode(mode);
        case MemberDeclaration(_) =>
          changesLocation := GetChangeLocationFromTypeMemberNode(node, change);
        case OtherNode =>
      }
      if changesLocation.Some? {
        return changesLocation.value;
      }
      k := k + 1;
    }
    return {Namespace};
  }

  /**
   * The walk: the location is that of the nearest node that answers, and
   * Namespace exactly when no node on the way answers. Every found node gives
   * exactly one location.
   */
  lemma {:induction false} FirstAnswerRule(ancestors: seq<SyntaxNode>, change: TextChange)
    ensures |FirstAnswer(ancestors, change)| == 1
    ensures FirstAnswer(ancestors, change) == {Namespace} <==>
      forall i :: 0 <= i < |ancestors| ==> NodeLocation(ancestors[i], change).None?
    ensures forall i :: 0 <= i < |ancestors| && NodeLocation(ancestors[i], change).Some?
                        && (forall j :: 0 <= j < i ==> NodeLocation(ancestors[j], change).None?)
             ==> FirstAnswer(ancestors, change) == NodeLocation(ancestors[i], change).value
  {
    if ancestors != [] {
      var tail := ancestors[1..];
      FirstAnswerRule(tail, change);
      assert forall i :: 1 <= i < |ancestors| ==> ancestors[i] == tail[i - 1];
      NodeLocationRule(ancestors[0], change);
    }
  }

  /** Below a member declaration, the walk never reaches the namespace. */
  lemma WalkStopsAtMember(ancestors: seq<SyntaxNode>, change: TextChange, i: nat)
    requires i < |ancestors| && ancestors[i].kind.MemberDeclaration?
    ensures FirstAnswer(ancestors, change) != {Namespace}
  {
    FirstAnswerRule(ancestors, change);
    NodeLocationRule(ancestors[i], change);
  }

  // ---------------------------------------------------------------------------
  // All changes
  // ---------------------------------------------------------------------------

  /** The OR of the locations of the changes. */
  function ChangesLocation(changes: seq<TextChange>, findNode: TextSpan -> Option<seq<SyntaxNode>>): ChangeLocation
  {
    if changes == [] then {}
    else ChangesLocation(changes[..|changes| - 1], findNode) + TextChangeLocation(changes[|changes| - 1], findNode)
  }

  method GetChangesLocationImpl(changes: seq<TextChange>, findNode: TextSpan -> Option<seq<SyntaxNode>>)
    returns (accumulated: ChangeLocation)
    ensures accumulated == ChangesLocation(changes, findNode)
  {
    accumulated := {};
    for k := 0 to |changes|
      invariant accumulated == ChangesLocation(changes[..k], findNode)
    {
      assert changes[..k + 1][..k] == changes[..k];
      var changeLocation := GetTextChangeLocation(changes[k], findNode);
      accumulated := accumulated + changeLocation;
    }
    assert changes[..|changes|] == changes;
  }

  /** No changes, no location; otherwise the combined location of the changes. */
  method GetChangesLocation(changes: seq<TextChange>, findNode: TextSpan -> Option<seq<SyntaxNode>>)
    returns (location: ChangeLocation)
    ensures changes == [] ==> location == {}
    ensures location == ChangesLocation(changes, findNode)
  {
    if |changes| == 0 {
      return {};
    }
    location := GetChangesLocationImpl(changes, findNode);
  }

  /** A flag is in the combined location iff some change has it. */
  lemma {:induction false} ChangesLocationIsUnion(changes: seq<TextChange>, findNode: TextSpan -> Option<seq<SyntaxNode>>, k: ChangeKind)
    ensures k in ChangesLocation(changes, findNode) <==>
            exists i :: 0 <= i < |changes| && k in TextChangeLocation(changes[i], findNode)
    decreases |changes|
  {
    if changes != [] {
      var prefix := changes[..|changes| - 1];
      ChangesLocationIsUnion(prefix, findNode, k);
      assert forall i :: 0 <= i < |prefix| ==> prefix[i] == changes[i];
    }
  }

  /** The combined location does not depend on the order of the changes, nor on repeats of one. */
  lemma ChangesLocationOrderIndependent(changes: seq<TextChange>, others: seq<TextChange>,
                                        findNode: TextSpan -> Option<seq<SyntaxNode>>)
    requires forall c :: c in changes <==> c in others
    ensures ChangesLocation(changes, findNode) == ChangesLocation(others, findNode)
  {
    forall k: ChangeKind
      ensures k in ChangesLocation(changes, findNode) <==> k in ChangesLocation(others, findNode)
    {
      ChangesLocationIsUnion(changes, findNode, k);
      ChangesLocationIsUnion(others, findNode, k);
      if k in ChangesLocation(changes, findNode) {
        var i :| 0 <= i < |changes| && k in TextChangeLocation(changes[i], findNode);
        assert changes[i] in others;
        var j :| 0 <= j < |others| && others[j] == changes[i];
      }
      if k in ChangesLocation(others, findNode) {
        var j :| 0 <= j < |others| && k in TextChangeLocation(others[j], findNode);
        assert others[j] in changes;
        var i :| 0 <= i < |changes| && changes[i] == others[j];
      }
    }
  }
}
