/** QueryServiceStatus: the status report shown for one service. */
module StatusQuery {
  import opened Wrappers
  import opened Win32
  import ServiceType

  /** The label of the STATE line for a run-state code: UNKNOWN for every code but the three named ones. */
  function StateLabel(state: DWord): (text: string)
    ensures text == "UNKNOWN" <==> state !in {ServiceRunning, ServiceStopped, ServicePaused}
    ensures text in {"RUNNING", "STOPPED", "PAUSED", "UNKNOWN"}
  {
    if state == ServiceRunning then "RUNNING"
    else if state == ServiceStopped then "STOPPED"
    else if state == ServicePaused then "PAUSED"
    else "UNKNOWN"
  }

  /** Reads a STATE label back as the run-state code it names; "UNKNOWN" names none. */
  function StateOfLabel(text: string): Option<DWord>
  {
    if text == "RUNNING" then Some(ServiceRunning)
    else if text == "STOPPED" then Some(ServiceStopped)
    else if text == "PAUSED" then Some(ServicePaused)
    else None
  }

  /** The three named states are told apart by their labels and read back to themselves. */
  lemma StateLabelRoundTrip(state: DWord)
    ensures StateOfLabel(StateLabel(state)) == (if state in {ServiceRunning, ServiceStopped, ServicePaused} then Some(state) else None)
  {
  }

  /** What QueryServiceStatusEx hands back: SERVICE_STATUS_PROCESS's type and state. */
  datatype StatusProcess = StatusProcess(serviceType: bv32, currentState: DWord)

  /** The three lines of a successful query. */
  datatype StatusReport = StatusReport(serviceName: string, typeText: string, stateText: string)

  /**
   * QueryServiceStatus with the SCM calls replaced by their outcomes: `handlesOpen`
   * says whether both handles were obtained, `status` is the query's answer
   * (None when it failed). A report is produced only when both succeed.
   */
  method QueryServiceStatus(serviceName: string, handlesOpen: bool, status: Option<StatusProcess>)
    returns (report: Option<StatusReport>)
    ensures report.Some? <==> handlesOpen && status.Some?
    ensures report.Some? ==> report.value == StatusReport(serviceName,
                                                          ServiceType.TypeText(status.value.serviceType),
                                                          StateLabel(status.value.currentState))
  {
    if !handlesOpen {
      return None;
    }
    if status.Some? {
      var typeText := ServiceType.ServiceTypeToString(status.value.serviceType);
      report := Some(StatusReport(serviceName, typeText, StateLabel(status.value.currentState)));
    } else {
      report := None;
    }
  }
}
