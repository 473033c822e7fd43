/**
 * The PX1030 analysis of DAC and DAC extension properties
 * (DacExtensionDefaultAttributeAnalyzer): whether a property is bound to a
 * database column, which PXDefault attribute it carries, and whether that
 * attribute is reported.
 *
 * An attribute application is a record of what the attribute-information
 * lookups answer about it (bound or unbound field attribute, derived from
 * PXDefaultAttribute, derived from PXUnboundDefaultAttribute), its named
 * arguments and the location of its syntax, if any. A property of a DAC
 * extension carries the attributes of the declarations it overrides, nearest
 * first, as the override chain lists them.
 */
module DacDefaultAttribute {
  import opened Common

  datatype DacType = Dac | DacExtension

  datatype BoundType = NotDefined | Unbound | DbBound

  /** The constant value of a named argument: an int, or anything else. */
  datatype ArgumentValue = IntValue(i: int) | OtherValue

  datatype NamedArgument = NamedArgument(key: string, value: ArgumentValue)

  /** A source location, opaque to the model. */
  type Location = nat

  datatype AttributeData = AttributeData(
    isBoundAttribute: bool,
    isUnboundAttribute: bool,
    derivesFromPXDefault: bool,
    derivesFromPXUnboundDefault: bool,
    namedArguments: seq<NamedArgument>,
    location: Option<Location>)

  /** A declared property: its own attributes and, nearest first, those of the declarations it overrides. */
  datatype DacPropertyInfo = DacPropertyInfo(attributes: seq<AttributeData>, overridden: seq<seq<AttributeData>>)
  {
    function ThisAndOverridenItems(): seq<seq<AttributeData>> { [attributes] + overridden }
    function JustOverridenItems(): seq<seq<AttributeData>> { overridden }
  }

  datatype Descriptor = PX1030OnDac | PX1030Error | PX1030Warning

  datatype Diagnostic = Diagnostic(descriptor: Descriptor, location: Location, isBoundField: bool)

  /** The named argument that controls the check on save. */
  const PersistingCheck: string := "PersistingCheck"
  /** PXPersistingCheck.Nothing */
  const PersistingCheckNothing: int := 2

  // ---------------------------------------------------------------------------
  // Bound type
  // ---------------------------------------------------------------------------

  predicate ContainsBoundAttributes(attributes: seq<AttributeData>)
  {
    exists i :: 0 <= i < |attributes| && attributes[i].isBoundAttribute
  }

  predicate ContainsUnboundAttributes(attributes: seq<AttributeData>)
  {
    exists i :: 0 <= i < |attributes| && attributes[i].isUnboundAttribute
  }

  /** The bound type of one declaration: a bound attribute wins over an unbound one. */
  function GetBoundTypeFromDeclaredProperty(attributes: seq<AttributeData>): (r: BoundType)
    ensures r == DbBound <==> ContainsBoundAttributes(attributes)
    ensures r == Unbound <==> !ContainsBoundAttributes(attributes) && ContainsUnboundAttributes(attributes)
    ensures r == NotDefined <==> !ContainsBoundAttributes(attributes) && !ContainsUnboundAttributes(attributes)
  {
    if ContainsBoundAttributes(attributes) then DbBound
    else if ContainsUnboundAttributes(attributes) then Unbound
    else NotDefined
  }

  /** The bound type of the first declaration of the chain that defines one. */
  function FirstDefinedBoundType(chain: seq<seq<AttributeData>>): (r: BoundType)
    ensures r == NotDefined <==> forall i :: 0 <= i < |chain| ==> GetBoundTypeFromDeclaredProperty(chain[i]) == NotDefined
    ensures r != NotDefined ==>
      exists i :: 0 <= i < |chain| && r == GetBoundTypeFromDeclaredProperty(chain[i])
                  && forall j :: 0 <= j < i ==> GetBoundTypeFromDeclaredProperty(chain[j]) == NotDefined
  {
    if chain == [] then NotDefined
    else
      var boundType := GetBoundTypeFromDeclaredProperty(chain[0]);
      if boundType == DbBound || boundType == Unbound then boundType
      else
        var r := FirstDefinedBoundType(chain[1..]);
        assert forall i :: 1 <= i < |chain| ==> chain[i] == chain[1..][i - 1];
        r
  }

  /** A DAC looks only at the property itself; an extension looks down its override chain. */
  function GetPropertyBoundType(dacType: DacType, property: DacPropertyInfo): BoundType
  {
    if dacType == Dac then GetBoundTypeFromDeclaredProperty(property.attributes)
    else FirstDefinedBoundType(property.ThisAndOverridenItems())
  }

  // ---------------------------------------------------------------------------
  // The PXDefault attribute
  // ---------------------------------------------------------------------------

  /** Derived from PXDefaultAttribute but not from PXUnboundDefaultAttribute. */
  predicate IsDefaultAttribute(a: AttributeData)
  {
    a.derivesFromPXDefault && !a.derivesFromPXUnboundDefault
  }

  /** The first default attribute of a declaration (FirstOrDefault). */
  function GetPXDefaultAttributeFromAttributes(attributes: seq<AttributeData>): (r: Option<AttributeData>)
    ensures r.None? <==> forall i :: 0 <= i < |attributes| ==> !IsDefaultAttribute(attributes[i])
    ensures r.Some? ==>
      exists i :: 0 <= i < |attributes| && attributes[i] == r.value && IsDefaultAttribute(r.value)
                  && forall j :: 0 <= j < i ==> !IsDefaultAttribute(attributes[j])
  {
    if attributes == [] then Option.None
    else if IsDefaultAttribute(attributes[0]) then Some(attributes[0])
    else
      var r := GetPXDefaultAttributeFromAttributes(attributes[1..]);
      assert forall i :: 1 <= i < |attributes| ==> attributes[i] == attributes[1..][i - 1];
      r
  }

  predicate IsPersistingCheckNothing(argument: NamedArgument)
  {
    argument.key == PersistingCheck && argument.value == IntValue(PersistingCheckNothing)
  }

  /** Whether a named argument `PersistingCheck` (ordinal comparison) holds the int 2, PXPersistingCheck.Nothing. */
  function HasPersistingCheckNothing(arguments: seq<NamedArgument>): (r: bool)
    ensures r <==> exists i :: 0 <= i < |arguments| && IsPersistingCheckNothing(arguments[i])
  {
    if arguments == [] then false
    else if IsPersistingCheckNothing(arguments[0]) then true
    else
      var r := HasPersistingCheckNothing(arguments[1..]);
      assert forall i :: 1 <= i < |arguments| ==> arguments[i] == arguments[1..][i - 1];
      r
  }

  datatype PXDefaultInfo = PXDefaultInfo(pxDefaultAttribute: Option<AttributeData>, hasPersistingCheckNothing: bool)

  /** The default attribute of a declaration and whether it carries PersistingCheck = Nothing (false when absent). */
  function GetPXDefaultInfo(attributes: seq<AttributeData>): (r: PXDefaultInfo)
    ensures r.pxDefaultAttribute == GetPXDefaultAttributeFromAttributes(attributes)
    ensures r.hasPersistingCheckNothing <==>
      r.pxDefaultAttribute.Some?
      && exists i :: 0 <= i < |r.pxDefaultAttribute.value.namedArguments|
                     && IsPersistingCheckNothing(r.pxDefaultAttribute.value.namedArguments[i])
  {
    match GetPXDefaultAttributeFromAttributes(attributes)
    case None => PXDefaultInfo(Option.None, false)
    case Some(a) => PXDefaultInfo(Some(a), HasPersistingCheckNothing(a.namedArguments))
  }

  /**
   * The decision of the nearest overridden declaration that has a default
   * attribute: whether its default has PersistingCheck = Nothing; None when
   * no overridden declaration has a default.
   */
  function NearestOverriddenDefault(overridden: seq<seq<AttributeData>>): (r: Option<bool>)
    ensures r.None? <==> forall i :: 0 <= i < |overridden| ==> !DeclaresDefault(overridden[i])
    ensures r.Some? ==> exists i :: IsNearestDefault(overridden, i, r.value)
  {
    if overridden == [] then Option.None
    else
      var info := GetPXDefaultInfo(overridden[0]);
      if info.pxDefaultAttribute.None? then
        var rest := overridden[1..];
        var r := NearestOverriddenDefault(rest);
        assert forall i :: 1 <= i < |overridden| ==> overridden[i] == rest[i - 1];
        assert r.Some? ==> exists i :: IsNearestDefault(overridden, i, r.value) by {
          if r.Some? {
            var i :| IsNearestDefault(rest, i, r.value);
            assert IsNearestDefault(overridden, i + 1, r.value);
          }
        }
        r
      else
        assert IsNearestDefault(overridden, 0, info.hasPersistingCheckNothing);
        Some(info.hasPersistingCheckNothing)
  }

  /** The declaration has a default attribute. */
  predicate DeclaresDefault(attributes: seq<AttributeData>)
  {
    GetPXDefaultInfo(attributes).pxDefaultAttribute.Some?
  }

  /** Declaration `i` is the first one in `overridden` with a default, and `hasNothing` says whether it has Nothing. */
  predicate IsNearestDefault(overridden: seq<seq<AttributeData>>, i: int, hasNothing: bool)
  {
    && 0 <= i < |overridden|
    && DeclaresDefault(overridden[i])
    && hasNothing == GetPXDefaultInfo(overridden[i]).hasPersistingCheckNothing
    && forall j :: 0 <= j < i ==> !DeclaresDefault(overridden[j])
  }

  /**
   * The default attribute of a bound extension property that is reported:
   * the property's own default without PersistingCheck = Nothing, unless the
   * nearest overridden declaration with a default lacks Nothing too.
   */
  function GetInvalidPXDefaultAttributeFromBoundProperty(property: DacPropertyInfo): Option<AttributeData>
  {
    var info := GetPXDefaultInfo(property.attributes);
    if info.pxDefaultAttribute.None? || info.hasPersistingCheckNothing then Option.None
    else match NearestOverriddenDefault(property.JustOverridenItems())
      case Some(baseHasNothing) => if baseHasNothing then info.pxDefaultAttribute else Option.None
      case None => info.pxDefaultAttribute
  }

  // ---------------------------------------------------------------------------
  // Reporting
  // ---------------------------------------------------------------------------

  function AnalyzeUnboundProperty(dacType: DacType, attributes: seq<AttributeData>): Option<Diagnostic>
  {
    var info := GetPXDefaultInfo(attributes);
    if info.pxDefaultAttribute.None? || info.hasPersistingCheckNothing then Option.None
    else match info.pxDefaultAttribute.value.location
      case None => Option.None
      case Some(loc) =>
        var descriptor := if dacType == Dac then PX1030OnDac else PX1030Error;
        Some(Diagnostic(descriptor, loc, false))
  }

  function AnalyzeBoundPropertyAttributes(property: DacPropertyInfo): Option<Diagnostic>
  {
    match GetInvalidPXDefaultAttributeFromBoundProperty(property)
    case None => Option.None
    case Some(a) =>
      match a.location
      case None => Option.None
      case Some(loc) => Some(Diagnostic(PX1030Warning, loc, true))
  }

  /** Unbound properties are analysed always, bound ones only in extensions, undefined ones never. */
  function AnalyzeProperty(dacType: DacType, property: DacPropertyInfo): Option<Diagnostic>
  {
    match GetPropertyBoundType(dacType, property)
    case Unbound => AnalyzeUnboundProperty(dacType, property.attributes)
    case DbBound => if dacType == DacExtension then AnalyzeBoundPropertyAttributes(property) else Option.None
    case NotDefined => Option.None
  }

  /** The decision for each declared property, in declaration order. */
  function Decisions(dacType: DacType, properties: seq<DacPropertyInfo>): (r: seq<Option<Diagnostic>>)
    ensures |r| == |properties|
  {
    seq(|properties|, i requires 0 <= i < |properties| => AnalyzeProperty(dacType, properties[i]))
  }

  /** The reported diagnostics of a sequence of decisions, in order. */
  function Flatten(decisions: seq<Option<Diagnostic>>): seq<Diagnostic>
  {
    if decisions == [] then []
    else
      var last := decisions[|decisions| - 1];
      Flatten(decisions[..|decisions| - 1]) + (if last.Some? then [last.value] else [])
  }

  lemma FlattenStep(decisions: seq<Option<Diagnostic>>, k: nat)
    requires k < |decisions|
    ensures Flatten(decisions[..k + 1]) == Flatten(decisions[..k]) + (if decisions[k].Some? then [decisions[k].value] else [])
  {
    assert decisions[..k + 1][..k] == decisions[..k];
  }

  /** The diagnostics of a DAC or extension's declared properties, in declaration order. */
  function Diagnostics(dacType: DacType, properties: seq<DacPropertyInfo>): seq<Diagnostic>
  {
    Flatten(Decisions(dacType, properties))
  }

  /** Analyze: walks the declared properties and reports each one's diagnostic. */
  method Analyze(dacType: DacType, properties: seq<DacPropertyInfo>) returns (reported: seq<Diagnostic>)
    ensures reported == Diagnostics(dacType, properties)
    ensures |reported| <= |properties|
  {
    ghost var decisions := Decisions(dacType, properties);
    reported := [];
    for k := 0 to |properties|
      invariant reported == Flatten(decisions[..k])
      invariant |reported| <= k
    {
      FlattenStep(decisions, k);
      var diagnostic := AnalyzeProperty(dacType, properties[k]);
      if diagnostic.Some? {
        reported := reported + [diagnostic.value];
      }
    }
    assert decisions[..|properties|] == decisions;
  }

  // ---------------------------------------------------------------------------
  // Properties
  // ---------------------------------------------------------------------------

  /** A DAC property takes its bound type from its own attributes only: what it overrides is ignored. */
  lemma DacIgnoresOverrides(p: DacPropertyInfo, q: DacPropertyInfo)
    requires p.attributes == q.attributes
    ensures GetPropertyBoundType(Dac, p) == GetPropertyBoundType(Dac, q)
  {
  }

  /**
   * An extension property with bound attributes of its own is bound, whatever
   * it overrides; one without attributes of either kind inherits the bound
   * type of what it overrides.
   */
  lemma {:induction false} ExtensionNearestWins(p: DacPropertyInfo)
    ensures GetBoundTypeFromDeclaredProperty(p.attributes) != NotDefined ==>
      GetPropertyBoundType(DacExtension, p) == GetBoundTypeFromDeclaredProperty(p.attributes)
    ensures GetBoundTypeFromDeclaredProperty(p.attributes) == NotDefined ==>
      GetPropertyBoundType(DacExtension, p) == FirstDefinedBoundType(p.JustOverridenItems())
  {
    assert p.ThisAndOverridenItems()[1..] == p.overridden;
  }

  /**
   * The PX1030 decision for one property, both ways: a diagnostic is reported
   * exactly for an unbound property whose default lacks PersistingCheck =
   * Nothing, or for a bound property of an extension whose default is found
   * invalid against its overrides, when the attribute has a location. An
   * unbound report is OnDAC on a DAC and Error on an extension and is not a
   * bound field; a bound report is the Warning with IsBoundField = true.
   */
  lemma AnalyzePropertyDecision(dacType: DacType, p: DacPropertyInfo)
    ensures var bt := GetPropertyBoundType(dacType, p);
      var info := GetPXDefaultInfo(p.attributes);
      var invalid := GetInvalidPXDefaultAttributeFromBoundProperty(p);
      var d := AnalyzeProperty(dacType, p);
      && (d.Some? <==>
           (bt == Unbound && info.pxDefaultAttribute.Some? && !info.hasPersistingCheckNothing
              && info.pxDefaultAttribute.value.location.Some?)
           || (bt == DbBound && dacType == DacExtension && invalid.Some? && invalid.value.location.Some?))
      && (d.Some? && bt == Unbound ==>
           d.value == Diagnostic(if dacType == Dac then PX1030OnDac else PX1030Error,
                                 info.pxDefaultAttribute.value.location.value, false))
      && (d.Some? && bt == DbBound ==>
           d.value == Diagnostic(PX1030Warning, invalid.value.location.value, true))
      && (bt == NotDefined ==> d.None?)
  {
  }

  /** The default attribute found invalid is the property's own, never one from an overridden declaration. */
  lemma InvalidDefaultIsOwn(p: DacPropertyInfo)
    ensures GetInvalidPXDefaultAttributeFromBoundProperty(p).Some? ==>
      GetInvalidPXDefaultAttributeFromBoundProperty(p) == GetPXDefaultAttributeFromAttributes(p.attributes)
      && !HasPersistingCheckNothing(GetPXDefaultAttributeFromAttributes(p.attributes).value.namedArguments)
  {
  }

  /**
   * The walk over overridden declarations: the property's own default without
   * Nothing is invalid iff no overridden declaration has a default, or the
   * nearest one that does has PersistingCheck = Nothing.
   */
  lemma InvalidDefaultAgainstOverrides(p: DacPropertyInfo)
    requires GetPXDefaultInfo(p.attributes).pxDefaultAttribute.Some?
    requires !GetPXDefaultInfo(p.attributes).hasPersistingCheckNothing
    ensures GetInvalidPXDefaultAttributeFromBoundProperty(p).Some? <==>
      (forall i :: 0 <= i < |p.overridden| ==> !DeclaresDefault(p.overridden[i]))
      || (exists i :: IsNearestDefault(p.overridden, i, true))
  {
    var r := NearestOverriddenDefault(p.overridden);
    if r.Some? {
      var i :| IsNearestDefault(p.overridden, i, r.value);
      forall k | IsNearestDefault(p.overridden, k, true) ensures k == i && r.value {
        NearestDefaultUnique(p.overridden, i, k, r.value, true);
      }
    }
  }

  /** At most one declaration is the nearest one with a default. */
  lemma NearestDefaultUnique(overridden: seq<seq<AttributeData>>, i: int, k: int, b: bool, c: bool)
    requires IsNearestDefault(overridden, i, b) && IsNearestDefault(overridden, k, c)
    ensures i == k && b == c
  {
  }

  /** The reported diagnostics of a walk are exactly the per-property decisions, in order. */
  lemma {:induction false} FlattenMembers(decisions: seq<Option<Diagnostic>>, d: Diagnostic)
    ensures d in Flatten(decisions) <==> exists k :: 0 <= k < |decisions| && decisions[k] == Some(d)
    decreases |decisions|
  {
    if decisions != [] {
      var prefix := decisions[..|decisions| - 1];
      FlattenMembers(prefix, d);
      assert forall k :: 0 <= k < |prefix| ==> prefix[k] == decisions[k];
    }
  }

  lemma DiagnosticsAreDecisions(dacType: DacType, properties: seq<DacPropertyInfo>, d: Diagnostic)
    ensures d in Diagnostics(dacType, properties) <==> exists k :: 0 <= k < |properties| && AnalyzeProperty(dacType, properties[k]) == Some(d)
  {
    var decisions := Decisions(dacType, properties);
    FlattenMembers(decisions, d);
    assert forall k :: 0 <= k < |properties| ==> decisions[k] == AnalyzeProperty(dacType, properties[k]);
  }

  /** A plain DAC never gets the bound-field Warning: all its reports are OnDAC and not bound fields. */
  lemma DacReportsAreOnDac(properties: seq<DacPropertyInfo>, d: Diagnostic)
    requires d in Diagnostics(Dac, properties)
    ensures d.descriptor == PX1030OnDac && !d.isBoundField
  {
    DiagnosticsAreDecisions(Dac, properties, d);
    var k :| 0 <= k < |properties| && AnalyzeProperty(Dac, properties[k]) == Some(d);
    AnalyzePropertyDecision(Dac, properties[k]);
  }

  // ---------------------------------------------------------------------------
  // Scenarios
  // ---------------------------------------------------------------------------

  const DbStringAttribute: AttributeData := AttributeData(true, false, false, false, [], Some(1))
  const StringAttribute: AttributeData := AttributeData(false, true, false, false, [], Some(2))

  function DefaultAttribute(arguments: seq<NamedArgument>, loc: Location): AttributeData
  {
    AttributeData(false, false, true, false, arguments, Some(loc))
  }

  /** An extension without attributes over a bound base is bound; adding an unbound attribute makes it unbound. */
  lemma ExtensionBoundTypeScenarios()
    ensures GetPropertyBoundType(DacExtension, DacPropertyInfo([], [[DbStringAttribute]])) == DbBound
    ensures GetPropertyBoundType(DacExtension, DacPropertyInfo([StringAttribute], [[DbStringAttribute]])) == Unbound
  {
    assert GetBoundTypeFromDeclaredProperty([DbStringAttribute]) == DbBound by {
      assert [DbStringAttribute][0].isBoundAttribute;
    }
    assert GetBoundTypeFromDeclaredProperty([StringAttribute]) == Unbound by {
      assert [StringAttribute][0].isUnboundAttribute;
    }
    var chain: seq<seq<AttributeData>> := [[], [DbStringAttribute]];
    assert DacPropertyInfo([], [[DbStringAttribute]]).ThisAndOverridenItems() == chain;
    assert chain[1..] == [[DbStringAttribute]];
    assert FirstDefinedBoundType(chain[1..]) == DbBound;
    assert GetBoundTypeFromDeclaredProperty(chain[0]) == NotDefined;
  }

  const NothingArguments: seq<NamedArgument> := [NamedArgument(PersistingCheck, IntValue(PersistingCheckNothing))]
  /** The override in the scenarios: bound, with a default that does not say PersistingCheck = Nothing. */
  const OverrideAttributes: seq<AttributeData> := [DbStringAttribute, DefaultAttribute([], 7)]

  lemma OverrideAttributesFacts()
    ensures GetBoundTypeFromDeclaredProperty(OverrideAttributes) == DbBound
    ensures GetPXDefaultInfo(OverrideAttributes) == PXDefaultInfo(Some(DefaultAttribute([], 7)), false)
  {
    var own := OverrideAttributes;
    assert own[0].isBoundAttribute;
    assert own[1..] == [DefaultAttribute([], 7)];
    assert GetPXDefaultAttributeFromAttributes(own[1..]) == Some(DefaultAttribute([], 7));
  }

  lemma DefaultWithArguments(before: seq<AttributeData>, arguments: seq<NamedArgument>, loc: Location)
    requires forall a :: a in before ==> !IsDefaultAttribute(a)
    ensures GetPXDefaultInfo(before + [DefaultAttribute(arguments, loc)])
         == PXDefaultInfo(Some(DefaultAttribute(arguments, loc)), HasPersistingCheckNothing(arguments))
  {
    var attributes := before + [DefaultAttribute(arguments, loc)];
    assert attributes[|before|] == DefaultAttribute(arguments, loc);
  }

  /** A base declaration whose default has PersistingCheck = Nothing makes the override's default reported. */
  lemma BaseWithNothingReports()
    ensures AnalyzeProperty(DacExtension, DacPropertyInfo(OverrideAttributes, [[DbStringAttribute, DefaultAttribute(NothingArguments, 3)]]))
         == Some(Diagnostic(PX1030Warning, 7, true))
  {
    OverrideAttributesFacts();
    assert HasPersistingCheckNothing(NothingArguments) by { assert NothingArguments[0].key == PersistingCheck; }
    DefaultWithArguments([DbStringAttribute], NothingArguments, 3);
    assert [DbStringAttribute] + [DefaultAttribute(NothingArguments, 3)] == [DbStringAttribute, DefaultAttribute(NothingArguments, 3)];
  }

  /** A base declaration whose default lacks PersistingCheck = Nothing suppresses the report. */
  lemma BaseWithoutNothingSuppresses()
    ensures AnalyzeProperty(DacExtension, DacPropertyInfo(OverrideAttributes, [[DbStringAttribute, DefaultAttribute([], 3)]]))
         == Option.None
  {
    OverrideAttributesFacts();
    DefaultWithArguments([DbStringAttribute], [], 3);
    assert [DbStringAttribute] + [DefaultAttribute([], 3)] == [DbStringAttribute, DefaultAttribute([], 3)];
  }

  /** Only the nearest overridden declaration with a default decides, not a farther one with Nothing. */
  lemma NearestBaseDecides()
    ensures AnalyzeProperty(DacExtension, DacPropertyInfo(OverrideAttributes,
                              [[DbStringAttribute], [DefaultAttribute([], 4)], [DefaultAttribute(NothingArguments, 3)]]))
         == Option.None
  {
    OverrideAttributesFacts();
    var deep: seq<seq<AttributeData>> := [[DbStringAttribute], [DefaultAttribute([], 4)], [DefaultAttribute(NothingArguments, 3)]];
    assert GetPXDefaultInfo(deep[0]).pxDefaultAttribute.None?;
    DefaultWithArguments([], [], 4);
    assert deep[1] == [] + [DefaultAttribute([], 4)];
    assert NearestOverriddenDefault(deep[1..]) == Some(false);
  }
}
