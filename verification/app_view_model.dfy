/** `AppViewModel`: the menu-bar status derived from the orchestrator's evaluation. */
module AppStatus {
  import opened Wrappers
  import opened Domain
  import opened Collaborators
  import opened Orchestration

  /** The status text and listening flag `refreshState` shows for an evaluation. */
  datatype Status = Status(text: string, listening: bool)

  const InitialStatus: Status := Status("Idle", false)

  function StatusFor(evaluation: Result<Option<ActionDecision>, Failure>): (s: Status)
    ensures s.listening <==> evaluation.Ok? && evaluation.value.Some?
    ensures evaluation.Err? ==> s == Status("Error", false)
    ensures evaluation == Ok(None) ==> s == Status("Idle", false)
    ensures evaluation.Ok? && evaluation.value.Some? ==>
      s.text == match evaluation.value.value.intendedAction
                case Compress => "Compress ready"
                case Decompress => "Decompress ready"
                case NoAction => "Watching"
  {
    match evaluation
    case Err(_) => Status("Error", false)
    case Ok(None) => Status("Idle", false)
    case Ok(Some(decision)) =>
      match decision.intendedAction
      case Compress => Status("Compress ready", true)
      case Decompress => Status("Decompress ready", true)
      case NoAction => Status("Watching", true)
  }

  /** With the chord released the menu bar shows "Idle", whatever is under the cursor. */
  lemma InactiveChordShowsIdle<W>(s: Services<W>, w: W)
    requires !s.chordActive(w)
    ensures StatusFor(Evaluate(s, w).1) == InitialStatus
  {
  }

  /** A directory under the cursor with the chord held shows "Compress ready"; an archive
      that is not a directory shows "Decompress ready"; any other item "Watching". */
  lemma HeldChordShowsItemStatus<W>(s: Services<W>, w: W, item: FinderItem)
    requires s.chordActive(w) && s.itemUnderCursor(w) == Ok(Some(item))
    ensures item.isDirectory ==> StatusFor(Evaluate(s, w).1) == Status("Compress ready", true)
    ensures !item.isDirectory && item.isArchive ==> StatusFor(Evaluate(s, w).1) == Status("Decompress ready", true)
    ensures !item.isDirectory && !item.isArchive ==> StatusFor(Evaluate(s, w).1) == Status("Watching", true)
  {
    var decision := Evaluate(s, w).1.value.value;
    assert decision.intendedAction == Decide(item);
  }

  class AppViewModel {
    var statusText: string
    var isListening: bool

    constructor ()
      ensures Status(statusText, isListening) == InitialStatus
    {
      statusText := "Idle";
      isListening := false;
    }

    /** `refreshState()`, given what `evaluatePendingAction()` returned or threw. */
    method RefreshState(evaluation: Result<Option<ActionDecision>, Failure>)
      modifies this
      ensures Status(statusText, isListening) == StatusFor(evaluation)
    {
      if evaluation.Ok? {
        if evaluation.value.Some? {
          isListening := true;
          match evaluation.value.value.intendedAction {
            case Compress => statusText := "Compress ready";
            case Decompress => statusText := "Decompress ready";
            case NoAction => statusText := "Watching";
          }
        } else {
          isListening := false;
          statusText := "Idle";
        }
      } else {
        isListening := false;
        statusText := "Error";
      }
    }
  }
}
