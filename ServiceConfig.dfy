/**
 * ConfigureService: with no start type it shows the stored configuration;
 * with one it maps the token to a start-type code and asks the SCM to set
 * that start type, with error control set to SERVICE_ERROR_NORMAL and every
 * other setting left unchanged.
 */
module ServiceConfig {
  import opened Wrappers
  import opened Win32

  const AutoToken := "auto"
  const ManualToken := "manual"
  const DisabledToken := "disabled"

  /**
   * The start-type code a command-line token selects: exactly auto, manual and
   * disabled are valid, and the token of each code selects it back.
   */
  function StartTypeCode(token: string): (r: Option<DWord>)
    ensures r.Some? <==> token in {AutoToken, ManualToken, DisabledToken}
    ensures r.Some? ==> StartTypeToken(r.value) == Some(token)
  {
    if token == AutoToken then Some(ServiceAutoStart)
    else if token == ManualToken then Some(ServiceDemandStart)
    else if token == DisabledToken then Some(ServiceDisabled)
    else None
  }

  /** The token that selects a start-type code, when there is one. */
  function StartTypeToken(code: DWord): Option<string>
  {
    if code == ServiceAutoStart then Some(AutoToken)
    else if code == ServiceDemandStart then Some(ManualToken)
    else if code == ServiceDisabled then Some(DisabledToken)
    else None
  }

  /** The three valid tokens map to AUTO_START, DEMAND_START and DISABLED. */
  lemma StartTypeCodes()
    ensures StartTypeCode(AutoToken) == Some(ServiceAutoStart)
    ensures StartTypeCode(ManualToken) == Some(ServiceDemandStart)
    ensures StartTypeCode(DisabledToken) == Some(ServiceDisabled)
  {
  }

  /** The mapping and its inverse agree in both directions. */
  lemma StartTypeRoundTrip(token: string, code: DWord)
    ensures StartTypeCode(token) == Some(code) <==> StartTypeToken(code) == Some(token)
  {
  }

  /** The argument tuple of ChangeServiceConfigW; None stands for a NULL pointer. */
  datatype ChangeConfigCall = ChangeConfigCall(
    serviceType: DWord,
    startType: DWord,
    errorControl: DWord,
    binaryPathName: Option<string>,
    loadOrderGroup: Option<string>,
    tagId: Option<DWord>,
    dependencies: Option<string>,
    serviceStartName: Option<string>,
    password: Option<string>,
    displayName: Option<string>)

  /**
   * The call ConfigureService issues: it sets the start type, sets error
   * control to SERVICE_ERROR_NORMAL whatever it was before, and leaves the
   * service type and every string and tag setting unchanged.
   */
  predicate StartTypeChange(call: ChangeConfigCall, code: DWord)
  {
    && call.serviceType == ServiceNoChange
    && call.startType == code
    && call.errorControl == ServiceErrorNormal
    && call.binaryPathName.None? && call.loadOrderGroup.None? && call.tagId.None?
    && call.dependencies.None? && call.serviceStartName.None? && call.password.None?
    && call.displayName.None?
  }

  /** The tokens the invalid-start-type message suggests, as the message spells them. */
  const SuggestedTokensAsWritten: seq<string> := ["automatic", ManualToken, DisabledToken]

  /** The tokens the message is evidently meant to suggest: the accepted ones. */
  const SuggestedTokens: seq<string> := [AutoToken, ManualToken, DisabledToken]

  /** What ConfigureService does. */
  datatype ConfigOutcome =
    | OpenFailed                                                  // OpenSCManager or OpenServiceW failed
    | ShowConfig                                                  // QueryServiceConfigW and display
    | InvalidStartType(token: string, suggested: seq<string>)     // message only, no change
    | ChangeStartType(call: ChangeConfigCall)                     // one ChangeServiceConfigW call

  /**
   * ConfigureService with `handlesOpen` standing for both handles being
   * obtained; an empty start type means the query form. A rejected token is
   * answered with the suggestions the message prints.
   */
  function ConfigureService(handlesOpen: bool, startType: string): (o: ConfigOutcome)
    ensures o == OpenFailed <==> !handlesOpen
    ensures o == ShowConfig <==> handlesOpen && startType == []
    ensures o.ChangeStartType? <==> handlesOpen && StartTypeCode(startType).Some?
    ensures o.ChangeStartType? ==> StartTypeChange(o.call, StartTypeCode(startType).value)
    ensures o.InvalidStartType? <==> handlesOpen && startType != [] && StartTypeCode(startType).None?
    ensures o.InvalidStartType? ==> o.token == startType && o.suggested == SuggestedTokensAsWritten
  {
    if !handlesOpen then OpenFailed
    else if startType == [] then ShowConfig
    else
      match StartTypeCode(startType)
      case None => InvalidStartType(startType, SuggestedTokensAsWritten)
      case Some(code) =>
        ChangeStartType(ChangeConfigCall(ServiceNoChange, code, ServiceErrorNormal, None, None, None, None, None, None, None))
  }

  /** Whenever a token is rejected, the first token the message suggests is rejected too. */
  lemma SuggestionAsWrittenRejected(startType: string)
    requires startType != [] && StartTypeCode(startType).None?
    ensures ConfigureService(true, startType).InvalidStartType?
    ensures StartTypeCode(ConfigureService(true, startType).suggested[0]).None?
  {
    assert SuggestedTokensAsWritten[0][4] != AutoToken[0];
  }

  /** ConfigureService as evidently intended: a rejected token is answered with the accepted tokens, and nothing else differs. */
  function ConfigureServiceCorrected(handlesOpen: bool, startType: string): (o: ConfigOutcome)
    ensures o.InvalidStartType? <==> ConfigureService(handlesOpen, startType).InvalidStartType?
    ensures o.InvalidStartType? ==> o.token == startType && o.suggested == SuggestedTokens
    ensures !o.InvalidStartType? ==> o == ConfigureService(handlesOpen, startType)
  {
    match ConfigureService(handlesOpen, startType)
    case InvalidStartType(t, _) => InvalidStartType(t, SuggestedTokens)
    case other => other
  }

  /**
   * With the correction, every rejection suggests exactly the accepted tokens:
   * a token is suggested if and only if it is accepted.
   */
  lemma SuggestionsAccepted(startType: string, token: string)
    requires ConfigureServiceCorrected(true, startType).InvalidStartType?
    ensures token in ConfigureServiceCorrected(true, startType).suggested <==> StartTypeCode(token).Some?
  {
  }

  /** The change requests an outcome sends to the SCM. */
  function ChangeCalls(o: ConfigOutcome): seq<ChangeConfigCall>
  {
    if o.ChangeStartType? then [o.call] else []
  }

  /**
   * A valid token issues exactly one change, to the code the token selects and
   * with error control NORMAL; any other token issues none.
   */
  lemma ChangesExactlyOnce(startType: string)
    ensures |ChangeCalls(ConfigureService(true, startType))| == (if StartTypeCode(startType).Some? then 1 else 0)
    ensures StartTypeCode(startType).Some? ==>
      StartTypeChange(ChangeCalls(ConfigureService(true, startType))[0], StartTypeCode(startType).value)
    ensures ChangeCalls(ConfigureService(false, startType)) == []
  {
  }
}
