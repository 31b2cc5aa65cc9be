/**
 * ConfigureServiceFailure: list the current failure actions, report that none
 * were found, or parse the arguments and submit a new policy, depending on
 * whether the failure-actions query succeeded and whether arguments were given.
 */
module FailureConfig {
  import opened Wrappers
  import opened Win32
  import Decimal
  import opened FailureArgs

  /** The SC_ACTION_TYPE code of a parsed action kind. */
  function KindCode(kind: ActionKind): DWord
  {
    match kind
    case Restart => ScActionRestart
    case Reboot => ScActionReboot
    case RunCommand => ScActionRunCommand
  }

  /** The action kind an SC_ACTION_TYPE code names; SC_ACTION_NONE and any other code name none. */
  function KindOfCode(code: DWord): Option<ActionKind>
  {
    if code == ScActionRestart then Some(Restart)
    else if code == ScActionReboot then Some(Reboot)
    else if code == ScActionRunCommand then Some(RunCommand)
    else None
  }

  const UnknownActionLabel := "Unknown action"

  /** How the listing names an action type: "Unknown action" for exactly the codes that name no kind. */
  function ActionLabel(code: DWord): (text: string)
    ensures text == UnknownActionLabel <==> KindOfCode(code).None?
    ensures text in {"Restart", "Reboot", "Run Command", UnknownActionLabel}
  {
    if code == ScActionRestart then "Restart"
    else if code == ScActionReboot then "Reboot"
    else if code == ScActionRunCommand then "Run Command"
    else UnknownActionLabel
  }

  /** Reads a listing label back as the action kind it names. */
  function KindOfLabel(text: string): Option<ActionKind>
  {
    if text == "Restart" then Some(Restart)
    else if text == "Reboot" then Some(Reboot)
    else if text == "Run Command" then Some(RunCommand)
    else None
  }

  /**
   * Codes 1, 2 and 3 are labelled Restart, Reboot and Run Command, which read
   * back as their kinds; no other label reads back as a kind.
   */
  lemma ActionLabelRoundTrip(code: DWord)
    ensures KindOfLabel(ActionLabel(code)) == KindOfCode(code)
    ensures KindOfCode(code).None? <==> code !in {ScActionRestart, ScActionReboot, ScActionRunCommand}
  {
  }

  /** Every parsed kind has a code that names it again. */
  lemma KindCodeRoundTrip(kind: ActionKind)
    ensures KindOfCode(KindCode(kind)) == Some(kind)
    ensures KindOfLabel(ActionLabel(KindCode(kind))) == Some(kind)
  {
  }

  /** An SC_ACTION as QueryServiceConfig2W reports it. */
  datatype ScAction = ScAction(actionType: DWord, delay: DWord)

  /** The SERVICE_FAILURE_ACTIONS record a successful query fills in (the strings are not shown). */
  datatype QueriedPolicy = QueriedPolicy(resetPeriod: DWord, actions: seq<ScAction>)

  /** One "Action n: <label> with delay: d seconds." line. */
  datatype ActionLine = ActionLine(number: nat, text: string, delay: DWord)

  /** What ConfigureServiceFailure does. */
  datatype FailureOutcome =
    | OpenFailed                                             // OpenSCManager or OpenServiceW failed
    | ShowCurrent(resetPeriod: DWord, lines: seq<ActionLine>) // no lines: "No failure actions set."
    | NoneFound                                              // the query failed and there were no arguments
    | Aborted(error: ParseError)                             // std::stoi threw while parsing
    | Submit(request: FailureActions)                        // ChangeServiceConfig2W is called with this record

  /** The listing of a queried action list: numbered from 1, labelled, with its delay. */
  function Listing(actions: seq<ScAction>): seq<ActionLine>
  {
    seq(|actions|, i requires 0 <= i < |actions| => ActionLine(i + 1, ActionLabel(actions[i].actionType), actions[i].delay))
  }

  /** The display loop over the queried actions. */
  method ListActions(actions: seq<ScAction>) returns (lines: seq<ActionLine>)
    ensures lines == Listing(actions)
  {
    lines := [];
    for i := 0 to |actions|
      invariant |lines| == i
      invariant forall k :: 0 <= k < i ==> lines[k] == ActionLine(k + 1, ActionLabel(actions[k].actionType), actions[k].delay)
    {
      var action := actions[i];
      lines := lines + [ActionLine(i + 1, ActionLabel(action.actionType), action.delay)];
    }
  }

  /**
   * ConfigureServiceFailure with the SCM calls replaced by their outcomes:
   * `handlesOpen` says whether both handles were obtained and `query` is the
   * answer of QueryServiceConfig2W (None when it failed).
   */
  method ConfigureServiceFailure(handlesOpen: bool, query: Option<QueriedPolicy>, args: seq<string>)
    returns (o: FailureOutcome)
    ensures o == OpenFailed <==> !handlesOpen
    ensures o.ShowCurrent? <==> handlesOpen && query.Some?
    ensures o.ShowCurrent? ==> o == ShowCurrent(query.value.resetPeriod, Listing(query.value.actions))
    ensures o == NoneFound <==> handlesOpen && query.None? && args == []
    ensures o.Submit? <==> handlesOpen && query.None? && args != [] && ParseFailure(args).Ok?
    ensures o.Submit? ==> o.request == ParseFailure(args).value
    ensures o.Aborted? <==> handlesOpen && query.None? && args != [] && ParseFailure(args).Err?
  {
    if !handlesOpen {
      return OpenFailed;
    }
    if query.Some? {
      var lines := ListActions(query.value.actions);
      o := ShowCurrent(query.value.resetPeriod, lines);
    } else if args == [] {
      o := NoneFound;
    } else {
      var parsed := ParseFailureArgs(args);
      match parsed
      case Err(e) => o := Aborted(e);
      case Ok(request) => o := Submit(request);
    }
  }

  // ---------------------------------------------------------------------------
  // Submitting, then querying back

  /** Every number of the record fits in a DWORD. */
  predicate Fits(p: FailureActions)
  {
    p.resetPeriod < 0x1_0000_0000 && forall i :: 0 <= i < |p.actions| ==> p.actions[i].delay < 0x1_0000_0000
  }

  /** What a registry that keeps the submitted record verbatim hands back to the next query. */
  function Stored(p: FailureActions): QueriedPolicy
    requires Fits(p)
  {
    QueriedPolicy(p.resetPeriod,
                  seq(|p.actions|, i requires 0 <= i < |p.actions| => ScAction(KindCode(p.actions[i].kind), p.actions[i].delay)))
  }

  /** Reads a listing back into actions; a line whose label names no kind spoils it. */
  function ReadBack(lines: seq<ActionLine>): Option<seq<Action>>
    decreases |lines|
  {
    if lines == [] then Some([])
    else
      match (KindOfLabel(lines[0].text), ReadBack(lines[1..]))
      case (Some(k), Some(rest)) => Some([Action(k, lines[0].delay)] + rest)
      case _ => None
  }

  /** Dropping the first line of a listing leaves the listing of the rest, up to the line numbers. */
  lemma ListingTail(stored: seq<ScAction>)
    requires stored != []
    ensures ReadBack(Listing(stored)[1..]) == ReadBack(Listing(stored[1..]))
  {
    var a, b := Listing(stored)[1..], Listing(stored[1..]);
    assert forall i :: 0 <= i < |a| ==> a[i].text == b[i].text && a[i].delay == b[i].delay;
    ReadBackIgnoresNumbers(a, b);
  }

  lemma {:induction false} ReadBackListing(acts: seq<Action>, stored: seq<ScAction>)
    requires |stored| == |acts|
    requires forall i :: 0 <= i < |acts| ==> stored[i].actionType == KindCode(acts[i].kind) && stored[i].delay == acts[i].delay
    ensures ReadBack(Listing(stored)) == Some(acts)
    decreases |acts|
  {
    if acts != [] {
      KindCodeRoundTrip(acts[0].kind);
      ReadBackListing(acts[1..], stored[1..]);
      ListingTail(stored);
      assert acts == [acts[0]] + acts[1..];
    }
  }

  /** Reading back looks only at the labels and delays, not at the line numbers. */
  lemma {:induction false} ReadBackIgnoresNumbers(a: seq<ActionLine>, b: seq<ActionLine>)
    requires |a| == |b|
    requires forall i :: 0 <= i < |a| ==> a[i].text == b[i].text && a[i].delay == b[i].delay
    ensures ReadBack(a) == ReadBack(b)
    decreases |a|
  {
    if a != [] {
      ReadBackIgnoresNumbers(a[1..], b[1..]);
    }
  }

  /**
   * Submitting a parsed policy and querying it back (from a registry that
   * keeps it verbatim) shows the same reset period and the same actions,
   * kinds and delays, in the same order.
   */
  lemma SubmitThenQuery(args: seq<string>)
    requires ParseFailure(args).Ok?
    ensures Fits(ParseFailure(args).value)
    ensures var p := ParseFailure(args).value;
      && Stored(p).resetPeriod == p.resetPeriod
      && ReadBack(Listing(Stored(p).actions)) == Some(p.actions)
  {
    ParsedValuesFit(args);
    var p := ParseFailure(args).value;
    ReadBackListing(p.actions, Stored(p).actions);
  }
}
