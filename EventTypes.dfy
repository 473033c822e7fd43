/**
 * The framework's DAC event types and their split into row events and field
 * events, shared by the graph event model and the saving-changes analyzer.
 */
module EventTypes {

  /** `None` is what the handler lookup answers for a method that is no event handler. */
  datatype EventType =
    | None
    | RowSelecting | RowSelected | RowInserting | RowInserted | RowUpdating | RowUpdated
    | RowDeleting | RowDeleted | RowPersisting | RowPersisted
    | FieldSelecting | FieldDefaulting | FieldVerifying | FieldUpdating | FieldUpdated
    | CacheAttached | CommandPreparing | ExceptionHandling

  /** Events raised for a whole record. */
  predicate IsDacRowEvent(t: EventType)
  {
    t.RowSelecting? || t.RowSelected? || t.RowInserting? || t.RowInserted? || t.RowUpdating?
    || t.RowUpdated? || t.RowDeleting? || t.RowDeleted? || t.RowPersisting? || t.RowPersisted?
  }

  /** Events raised for a single field of a record. */
  predicate IsDacFieldEvent(t: EventType)
  {
    t.FieldSelecting? || t.FieldDefaulting? || t.FieldVerifying? || t.FieldUpdating? || t.FieldUpdated?
    || t.CacheAttached? || t.CommandPreparing? || t.ExceptionHandling?
  }

  /** The eighteen event types in the order the graph event model lists its collections. */
  const AllEventTypes: seq<EventType> := [
    RowSelecting, RowSelected, RowInserting, RowInserted, RowUpdating, RowUpdated,
    RowDeleting, RowDeleted, RowPersisting, RowPersisted,
    FieldSelecting, FieldDefaulting, FieldVerifying, FieldUpdating, FieldUpdated,
    CacheAttached, CommandPreparing, ExceptionHandling]

  /** Position of an event type in AllEventTypes. */
  function EventIndex(t: EventType): (i: nat)
    requires t != EventType.None
  {
    match t
    case RowSelecting => 0  case RowSelected => 1  case RowInserting => 2  case RowInserted => 3
    case RowUpdating => 4   case RowUpdated => 5   case RowDeleting => 6   case RowDeleted => 7
    case RowPersisting => 8 case RowPersisted => 9
    case FieldSelecting => 10 case FieldDefaulting => 11 case FieldVerifying => 12
    case FieldUpdating => 13  case FieldUpdated => 14
    case CacheAttached => 15  case CommandPreparing => 16 case ExceptionHandling => 17
  }

  /** Every event type but None is listed, at its own position. */
  lemma AllEventTypesComplete(t: EventType)
    ensures t != EventType.None ==> EventIndex(t) < |AllEventTypes| && AllEventTypes[EventIndex(t)] == t
    ensures t in AllEventTypes <==> t != EventType.None
  {
    match t
    case None =>
      forall i | 0 <= i < |AllEventTypes| ensures AllEventTypes[i] != t {
        EventIndexOfListed(i);
      }
    case RowSelecting =>    case RowSelected =>     case RowInserting =>    case RowInserted =>
    case RowUpdating =>     case RowUpdated =>      case RowDeleting =>     case RowDeleted =>
    case RowPersisting =>   case RowPersisted =>
    case FieldSelecting =>  case FieldDefaulting => case FieldVerifying =>  case FieldUpdating =>
    case FieldUpdated =>    case CacheAttached =>   case CommandPreparing => case ExceptionHandling =>
  }

  /** Every event type but None is a row event or a field event, never both; None is neither. */
  lemma RowOrFieldEvent(t: EventType)
    ensures t != EventType.None ==> (IsDacRowEvent(t) <==> !IsDacFieldEvent(t))
    ensures t == EventType.None ==> !IsDacRowEvent(t) && !IsDacFieldEvent(t)
  {
  }

  lemma {:induction false} EventIndexOfListed(i: nat)
    requires i < |AllEventTypes|
    ensures AllEventTypes[i] != EventType.None && EventIndex(AllEventTypes[i]) == i
  {
    if i < 9 {
      assert i == 0 || i == 1 || i == 2 || i == 3 || i == 4 || i == 5 || i == 6 || i == 7 || i == 8;
    } else {
      assert i == 9 || i == 10 || i == 11 || i == 12 || i == 13 || i == 14 || i == 15 || i == 16 || i == 17;
    }
  }

  /** No event type is listed twice. */
  lemma AllEventTypesDistinct()
    ensures forall i, j :: 0 <= i < j < |AllEventTypes| ==> AllEventTypes[i] != AllEventTypes[j]
  {
    forall i, j | 0 <= i < j < |AllEventTypes| ensures AllEventTypes[i] != AllEventTypes[j] {
      EventIndexOfListed(i);
      EventIndexOfListed(j);
    }
  }
}
