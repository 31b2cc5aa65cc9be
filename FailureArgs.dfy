/**
 * The argument parser of ConfigureServiceFailure: `reset=`, `actions=`,
 * `reboot=` and `command=` arguments read, in order, into the failure-actions
 * record handed to ChangeServiceConfig2W.
 */
module FailureArgs {
  import opened Wrappers
  import Decimal

  /** SC_ACTION_TYPE values the parser can produce. */
  datatype ActionKind = Restart | Reboot | RunCommand

  /** An SC_ACTION: what to do and how many milliseconds to wait first (the source calls it seconds). */
  datatype Action = Action(kind: ActionKind, delay: nat)

  /**
   * The SERVICE_FAILURE_ACTIONS record submitted: an empty action list stands
   * for a null lpsaActions, None for a null lpRebootMsg or lpCommand.
   */
  datatype FailureActions = FailureActions(resetPeriod: nat, actions: seq<Action>,
                                           rebootMsg: Option<string>, command: Option<string>)

  /** std::stoi threw on this text; the exception ends the whole operation. */
  datatype ParseError = BadNumber(text: string)

  /** The parser's working state: the four locals of the argument loop. */
  datatype Draft = Draft(resetPeriod: nat, actions: seq<Action>, rebootMsg: string, failureCommand: string)

  const Initial := Draft(0, [], "", "")

  const ResetPrefix := "reset="
  const ActionsPrefix := "actions="
  const RebootPrefix := "reboot="
  const CommandPrefix := "command="

  /** The delimiter the action list is split on. */
  const Slash := '/'

  // ---------------------------------------------------------------------------
  // Splitting the action list the way std::getline(ss, token, L'/') does

  /** The index of the first '/' at or after pos, or |s| when there is none. */
  function NextSlash(s: string, pos: nat): (j: nat)
    requires pos <= |s|
    ensures pos <= j <= |s|
    ensures forall k :: pos <= k < j ==> s[k] != Slash
    ensures j < |s| ==> s[j] == Slash
    decreases |s| - pos
  {
    if pos == |s| || s[pos] == Slash then pos else NextSlash(s, pos + 1)
  }

  /**
   * One std::getline call on a stream positioned at pos: None once the stream
   * is exhausted; otherwise the characters up to the next '/' and the position
   * just past that '/' (or the end).
   */
  function GetLine(s: string, pos: nat): (r: Option<(string, nat)>)
    requires pos <= |s|
    ensures r.None? <==> pos == |s|
    ensures r.Some? ==> var (token, next) := r.value;
      && pos < next <= |s| && Slash !in token
      && (s[pos..next] == token + [Slash] || (next == |s| && s[pos..] == token))
  {
    if pos == |s| then None
    else
      var j := NextSlash(s, pos);
      Some((s[pos..j], if j < |s| then j + 1 else j))
  }

  /**
   * The tokens std::getline yields, in order: the pieces between slashes,
   * except that a trailing '/' yields no final empty piece and "" yields none.
   */
  function Tokens(s: string): (ts: seq<string>)
    ensures s != [] ==> |ts| >= 1
    decreases |s|
  {
    if s == [] then []
    else
      var j := NextSlash(s, 0);
      if j == |s| then [s] else [s[..j]] + Tokens(s[j + 1..])
  }

  /** The tokens joined back with '/'. */
  function JoinSlash(ts: seq<string>): string
    decreases |ts|
  {
    if ts == [] then "" else if |ts| == 1 then ts[0] else ts[0] + [Slash] + JoinSlash(ts[1..])
  }

  predicate EndsWithSlash(s: string) { s != [] && s[|s| - 1] == Slash }

  /** No token contains '/'. */
  lemma {:induction false} TokensHaveNoSlash(s: string)
    ensures forall i :: 0 <= i < |Tokens(s)| ==> Slash !in Tokens(s)[i]
    decreases |s|
  {
    if s != [] {
      var j := NextSlash(s, 0);
      if j < |s| {
        TokensHaveNoSlash(s[j + 1..]);
        assert Slash !in s[..j];
      }
    }
  }

  /** Joining a token in front of a non-empty list puts one '/' between them. */
  lemma JoinSlashCons(head: string, ts: seq<string>)
    requires ts != []
    ensures JoinSlash([head] + ts) == head + [Slash] + JoinSlash(ts)
  {
    assert ([head] + ts)[1..] == ts;
  }

  /** Joining the tokens with '/' rebuilds the list, but for a trailing '/' (which getline swallows). */
  lemma {:induction false} TokensRebuild(s: string)
    ensures JoinSlash(Tokens(s)) + (if EndsWithSlash(s) then [Slash] else []) == s
    decreases |s|
  {
    if s != [] {
      var j := NextSlash(s, 0);
      if j < |s| {
        var rest, head := s[j + 1..], s[..j];
        assert s == head + [Slash] + rest;
        assert Tokens(s) == [head] + Tokens(rest);
        if rest == [] {
          assert Tokens(s) == [head];
        } else {
          TokensRebuild(rest);
          JoinSlashCons(head, Tokens(rest));
          var tail := if EndsWithSlash(rest) then [Slash] else [];
          assert EndsWithSlash(s) == EndsWithSlash(rest);
          assert JoinSlash(Tokens(rest)) + tail == rest;
          assert head + [Slash] + JoinSlash(Tokens(rest)) + tail == head + [Slash] + (JoinSlash(Tokens(rest)) + tail);
        }
      } else {
        assert Tokens(s) == [s];
      }
    }
  }

  /** A token free of '/' followed by '/' is the first token. */
  lemma TokensCons(w: string, rest: string)
    requires Slash !in w
    ensures Tokens(w + [Slash] + rest) == [w] + Tokens(rest)
  {
    var s := w + [Slash] + rest;
    assert s[|w|] == Slash && forall k :: 0 <= k < |w| ==> s[k] == w[k];
    assert NextSlash(s, 0) == |w|;
    assert s[..|w|] == w && s[|w| + 1..] == rest;
  }

  /**
   * The other direction: tokens free of '/' whose last one is not empty are
   * exactly what getline yields from the list they join into.
   */
  lemma {:induction false} TokensOfJoin(ts: seq<string>)
    requires forall i :: 0 <= i < |ts| ==> Slash !in ts[i]
    requires ts != [] ==> ts[|ts| - 1] != []
    ensures Tokens(JoinSlash(ts)) == ts
    decreases |ts|
  {
    if |ts| == 1 {
      assert NextSlash(ts[0], 0) == |ts[0]|;
    } else if |ts| > 1 {
      TokensOfJoin(ts[1..]);
      TokensCons(ts[0], JoinSlash(ts[1..]));
    }
  }

  /** Searching from pos finds the same '/' as searching the suffix that starts there. */
  lemma NextSlashSuffix(s: string, pos: nat)
    requires pos <= |s|
    ensures NextSlash(s[pos..], 0) == NextSlash(s, pos) - pos
  {
  }

  /** A text whose first '/' is at k splits into the piece before it and the tokens after it. */
  lemma TokensSplit(u: string, k: nat)
    requires k < |u| && NextSlash(u, 0) == k
    ensures Tokens(u) == [u[..k]] + Tokens(u[k + 1..])
  {
  }

  /** Tokens of a suffix whose first '/' is at j: the piece before it, then the tokens after it. */
  lemma TokensAtSlash(s: string, pos: nat, j: nat)
    requires pos <= j < |s| && NextSlash(s[pos..], 0) == j - pos
    ensures Tokens(s[pos..]) == [s[pos..j]] + Tokens(s[j + 1..])
  {
    var u := s[pos..];
    TokensSplit(u, j - pos);
    assert u[..j - pos] == s[pos..j];
    assert u[j - pos + 1..] == s[j + 1..];
  }

  /** Tokens of a non-empty suffix without a '/': the suffix itself. */
  lemma TokensWithoutSlash(s: string, pos: nat)
    requires pos < |s| && NextSlash(s, pos) == |s|
    ensures Tokens(s[pos..]) == [s[pos..]]
  {
    NextSlashSuffix(s, pos);
  }

  /** A successful getline call takes the first remaining token off the stream. */
  lemma GetLineStep(s: string, pos: nat)
    requires pos < |s|
    ensures GetLine(s, pos).Some?
    ensures GetLine(s, pos).value.1 <= |s|
    ensures Tokens(s[pos..]) == [GetLine(s, pos).value.0] + Tokens(s[GetLine(s, pos).value.1..])
  {
    var j := NextSlash(s, pos);
    if j < |s| {
      assert GetLine(s, pos) == Some((s[pos..j], j + 1));
      NextSlashSuffix(s, pos);
      TokensAtSlash(s, pos, j);
    } else {
      assert GetLine(s, pos) == Some((s[pos..], |s|));
      TokensWithoutSlash(s, pos);
      assert s[|s|..] == [];
    }
  }

  // ---------------------------------------------------------------------------
  // The action list

  /** The action a keyword token appends, or None for any other token. */
  function KeywordKind(token: string): Option<ActionKind>
  {
    if token == "restart" then Some(Restart)
    else if token == "run" then Some(RunCommand)
    else if token == "reboot" then Some(Reboot)
    else None
  }

  /** The list with the delay of its last action replaced; the empty list unchanged. */
  function WithLastDelay(acts: seq<Action>, delay: nat): seq<Action>
  {
    if acts == [] then [] else acts[..|acts| - 1] + [acts[|acts| - 1].(delay := delay)]
  }

  /**
   * The effect of one token on the action list. It fails exactly when the token
   * is neither a keyword nor a number std::stoi reads. A keyword appends one
   * action of its kind with delay 0. A number changes only the delay of the last
   * action, keeping the length, the earlier actions and the last kind; with no
   * action yet it changes nothing.
   */
  function ApplyToken(acts: seq<Action>, token: string): (r: Result<seq<Action>, ParseError>)
    ensures r.Err? <==> !GoodToken(token)
    ensures KeywordKind(token).Some? ==> r == Ok(acts + [Action(KeywordKind(token).value, 0)])
    ensures KeywordKind(token).None? && r.Ok? ==>
      && |r.value| == |acts|
      && (forall i :: 0 <= i < |acts| - 1 ==> r.value[i] == acts[i])
      && (acts != [] ==> r.value[|acts| - 1] == Action(acts[|acts| - 1].kind, Decimal.ParseInt(token).value))
  {
    match KeywordKind(token)
    case Some(kind) => Ok(acts + [Action(kind, 0)])
    case None =>
      match Decimal.ParseInt(token)
      case None => Err(BadNumber(token))
      case Some(delay) => Ok(WithLastDelay(acts, delay))
  }

  /** The tokens applied in order; the first token std::stoi rejects ends the parse. */
  function ApplyTokens(acts: seq<Action>, tokens: seq<string>): Result<seq<Action>, ParseError>
    decreases |tokens|
  {
    if tokens == [] then Ok(acts)
    else
      match ApplyToken(acts, tokens[0])
      case Err(e) => Err(e)
      case Ok(next) => ApplyTokens(next, tokens[1..])
  }

  // ---------------------------------------------------------------------------
  // The argument list

  predicate StartsWith(arg: string, prefix: string) { prefix <= arg }

  /**
   * The effect of one argument, tested against the prefixes in the source's
   * order. It fails exactly when the argument holds a value std::stoi rejects.
   * Each prefix sets only its own local; an argument with none of the prefixes
   * changes nothing.
   */
  function ApplyArg(d: Draft, arg: string): (r: Result<Draft, ParseError>)
    ensures r.Err? <==> !GoodArg(arg)
    ensures Unrecognised(arg) ==> r == Ok(d)
    ensures r.Ok? ==>
      && (if StartsWith(arg, ResetPrefix) then Decimal.ParseInt(arg[|ResetPrefix|..]) == Some(r.value.resetPeriod)
          else r.value.resetPeriod == d.resetPeriod)
      && (if StartsWith(arg, ActionsPrefix) then Kinds(r.value.actions) == Kinds(d.actions) + KeywordKinds(Tokens(arg[|ActionsPrefix|..]))
          else r.value.actions == d.actions)
      && r.value.rebootMsg == (if StartsWith(arg, RebootPrefix) then arg[|RebootPrefix|..] else d.rebootMsg)
      && r.value.failureCommand == (if StartsWith(arg, CommandPrefix) then arg[|CommandPrefix|..] else d.failureCommand)
  {
    PrefixesExclusive(arg);
    if StartsWith(arg, ResetPrefix) then
      match Decimal.ParseInt(arg[|ResetPrefix|..])
      case None => Err(BadNumber(arg[|ResetPrefix|..]))
      case Some(n) => Ok(d.(resetPeriod := n))
    else if StartsWith(arg, ActionsPrefix) then
      var tokens := Tokens(arg[|ActionsPrefix|..]);
      TokensParseIff(d.actions, tokens);
      match ApplyTokens(d.actions, tokens)
      case Err(e) => Err(e)
      case Ok(acts) =>
        ActionsFollowKeywords(d.actions, tokens);
        Ok(d.(actions := acts))
    else if StartsWith(arg, RebootPrefix) then Ok(d.(rebootMsg := arg[|RebootPrefix|..]))
    else if StartsWith(arg, CommandPrefix) then Ok(d.(failureCommand := arg[|CommandPrefix|..]))
    else Ok(d)
  }

  /** The arguments applied in order. */
  function ApplyArgs(d: Draft, args: seq<string>): Result<Draft, ParseError>
    decreases |args|
  {
    if args == [] then Ok(d)
    else
      match ApplyArg(d, args[0])
      case Err(e) => Err(e)
      case Ok(next) => ApplyArgs(next, args[1..])
  }

  /** The record built from the parsed locals: an empty text becomes a null pointer. */
  function Submitted(d: Draft): FailureActions
  {
    FailureActions(d.resetPeriod, d.actions,
                   if d.rebootMsg == [] then None else Some(d.rebootMsg),
                   if d.failureCommand == [] then None else Some(d.failureCommand))
  }

  /** What parsing the failure arguments yields: the record to submit, or the exception that aborts. */
  function ParseFailure(args: seq<string>): Result<FailureActions, ParseError>
  {
    match ApplyArgs(Initial, args)
    case Err(e) => Err(e)
    case Ok(d) => Ok(Submitted(d))
  }

  // ---------------------------------------------------------------------------
  // The parser as the source runs it

  /**
   * The parsing loop of ConfigureServiceFailure: the action list is a buffer
   * that keyword tokens push onto and number tokens patch at its back.
   */
  method ParseFailureArgs(args: seq<string>) returns (r: Result<FailureActions, ParseError>)
    ensures r == ParseFailure(args)
  {
    var resetPeriod: nat := 0;
    var actions: seq<Action> := [];
    var rebootMsg: string := "";
    var failureCommand: string := "";
    for i := 0 to |args|
      invariant ApplyArgs(Initial, args) == ApplyArgs(Draft(resetPeriod, actions, rebootMsg, failureCommand), args[i..])
    {
      var arg := args[i];
      assert args[i..][0] == arg && args[i..][1..] == args[i + 1..];
      ghost var d := Draft(resetPeriod, actions, rebootMsg, failureCommand);
      if StartsWith(arg, ResetPrefix) {
        var n := Decimal.ParseInt(arg[|ResetPrefix|..]);
        if n.None? {
          return Err(BadNumber(arg[|ResetPrefix|..]));
        }
        resetPeriod := n.value;
      } else if StartsWith(arg, ActionsPrefix) {
        var actionList := arg[|ActionsPrefix|..];
        var pos := 0;
        while pos < |actionList|
          invariant pos <= |actionList|
          invariant ApplyTokens(d.actions, Tokens(actionList)) == ApplyTokens(actions, Tokens(actionList[pos..]))
          decreases |actionList| - pos
        {
          GetLineStep(actionList, pos);
          var (token, next) := GetLine(actionList, pos).value;
          if token == "restart" {
            actions := actions + [Action(Restart, 0)];
          } else if token == "run" {
            actions := actions + [Action(RunCommand, 0)];
          } else if token == "reboot" {
            actions := actions + [Action(Reboot, 0)];
          } else {
            var delay := Decimal.ParseInt(token);
            if delay.None? {
              return Err(BadNumber(token));
            }
            if actions != [] {
              actions := actions[..|actions| - 1] + [actions[|actions| - 1].(delay := delay.value)];
            }
          }
          pos := next;
        }
        assert actionList[|actionList|..] == [];
      } else if StartsWith(arg, RebootPrefix) {
        rebootMsg := arg[|RebootPrefix|..];
      } else if StartsWith(arg, CommandPrefix) {
        failureCommand := arg[|CommandPrefix|..];
      }
    }
    r := Ok(FailureActions(resetPeriod, actions,
                           if rebootMsg == [] then None else Some(rebootMsg),
                           if failureCommand == [] then None else Some(failureCommand)));
  }

  // ---------------------------------------------------------------------------
  // What the parse promises

  /** The kinds of a list of actions, in order. */
  function Kinds(acts: seq<Action>): seq<ActionKind>
    decreases |acts|
  {
    if acts == [] then [] else Kinds(acts[..|acts| - 1]) + [acts[|acts| - 1].kind]
  }

  /** The kinds named by the keyword tokens among `tokens`, in order; other tokens name none. */
  function KeywordKinds(tokens: seq<string>): seq<ActionKind>
    decreases |tokens|
  {
    if tokens == [] then []
    else (match KeywordKind(tokens[0]) case Some(k) => [k] case None => []) + KeywordKinds(tokens[1..])
  }

  /** A token the parse accepts: a keyword, or a number std::stoi reads. */
  predicate GoodToken(token: string)
  {
    KeywordKind(token).Some? || Decimal.ParseInt(token).Some?
  }

  lemma KindsSnoc(acts: seq<Action>, a: Action)
    ensures Kinds(acts + [a]) == Kinds(acts) + [a.kind]
  {
    assert (acts + [a])[..|acts|] == acts;
  }

  /** Patching the last delay keeps every kind. */
  lemma KindsWithLastDelay(acts: seq<Action>, delay: nat)
    ensures Kinds(WithLastDelay(acts, delay)) == Kinds(acts)
  {
    if acts != [] {
      KindsSnoc(acts[..|acts| - 1], acts[|acts| - 1].(delay := delay));
    }
  }

  /**
   * Each keyword token adds one action, in input order, and no other token adds
   * or removes one: the kinds parsed are the keyword kinds of the tokens.
   */
  lemma {:induction false} ActionsFollowKeywords(acts: seq<Action>, tokens: seq<string>)
    requires ApplyTokens(acts, tokens).Ok?
    ensures Kinds(ApplyTokens(acts, tokens).value) == Kinds(acts) + KeywordKinds(tokens)
    decreases |tokens|
  {
    if tokens != [] {
      var next := ApplyToken(acts, tokens[0]).value;
      ActionsFollowKeywords(next, tokens[1..]);
      match KeywordKind(tokens[0])
      case Some(k) =>
        KindsSnoc(acts, Action(k, 0));
      case None =>
        KindsWithLastDelay(acts, Decimal.ParseInt(tokens[0]).value);
    }
  }

  /** The token list parses exactly when every token is a keyword or a number, whatever the actions so far. */
  lemma {:induction false} TokensParseIff(acts: seq<Action>, tokens: seq<string>)
    ensures ApplyTokens(acts, tokens).Ok? <==> forall i :: 0 <= i < |tokens| ==> GoodToken(tokens[i])
    decreases |tokens|
  {
    if tokens != [] && GoodToken(tokens[0]) {
      TokensParseIff(ApplyToken(acts, tokens[0]).value, tokens[1..]);
      assert forall i :: 1 <= i < |tokens| ==> tokens[i] == tokens[1..][i - 1];
    }
  }

  /** Parsing a concatenation is parsing the first part, then the second from where the first left off. */
  lemma {:induction false} ApplyArgsAppend(d: Draft, a: seq<string>, b: seq<string>)
    ensures ApplyArgs(d, a + b) == match ApplyArgs(d, a) case Err(e) => Err(e) case Ok(d') => ApplyArgs(d', b)
    decreases |a|
  {
    if a != [] {
      assert (a + b)[0] == a[0] && (a + b)[1..] == a[1..] + b;
      match ApplyArg(d, a[0])
      case Err(e) =>
        assert ApplyArgs(d, a + b) == Err(e) && ApplyArgs(d, a) == Err(e);
      case Ok(next) =>
        ApplyArgsAppend(next, a[1..], b);
        assert ApplyArgs(d, a + b) == ApplyArgs(next, a[1..] + b);
    } else {
      assert a + b == b;
    }
  }

  /** An argument none of the four prefixes starts. */
  predicate Unrecognised(arg: string)
  {
    !StartsWith(arg, ResetPrefix) && !StartsWith(arg, ActionsPrefix)
    && !StartsWith(arg, RebootPrefix) && !StartsWith(arg, CommandPrefix)
  }

  /** An argument with an unrecognised prefix, wherever it stands, changes nothing. */
  lemma UnrecognisedIgnored(before: seq<string>, arg: string, after: seq<string>)
    requires Unrecognised(arg)
    ensures ParseFailure(before + [arg] + after) == ParseFailure(before + after)
  {
    ApplyArgsAppend(Initial, before, [arg] + after);
    ApplyArgsAppend(Initial, before, after);
    assert before + [arg] + after == before + ([arg] + after);
    match ApplyArgs(Initial, before)
    case Err(e) =>
    case Ok(d) =>
      assert ([arg] + after)[1..] == after;
  }

  /** No argument starts with two of the four prefixes, so the order of the tests does not matter. */
  lemma PrefixesExclusive(arg: string)
    ensures StartsWith(arg, ResetPrefix) ==> !StartsWith(arg, ActionsPrefix) && !StartsWith(arg, RebootPrefix) && !StartsWith(arg, CommandPrefix)
    ensures StartsWith(arg, ActionsPrefix) ==> !StartsWith(arg, RebootPrefix) && !StartsWith(arg, CommandPrefix)
    ensures StartsWith(arg, RebootPrefix) ==> !StartsWith(arg, CommandPrefix)
  {
    if StartsWith(arg, ResetPrefix) {
      assert arg[0] == 'r' && arg[2] == 's';
    }
    if StartsWith(arg, ActionsPrefix) {
      assert arg[0] == 'a';
    }
    if StartsWith(arg, RebootPrefix) {
      assert arg[0] == 'r' && arg[2] == 'b';
    }
    if StartsWith(arg, CommandPrefix) {
      assert arg[0] == 'c';
    }
  }

  /** The text after the prefix of the last argument that starts with it, if any. */
  function LastRemainder(args: seq<string>, prefix: string): Option<string>
    decreases |args|
  {
    if args == [] then None
    else if StartsWith(args[|args| - 1], prefix) then Some(args[|args| - 1][|prefix|..])
    else LastRemainder(args[..|args| - 1], prefix)
  }

  /** The keyword kinds of every `actions=` argument, argument after argument. */
  function AllKeywordKinds(args: seq<string>): seq<ActionKind>
    decreases |args|
  {
    if args == [] then []
    else
      var arg := args[|args| - 1];
      AllKeywordKinds(args[..|args| - 1])
      + if StartsWith(arg, ActionsPrefix) then KeywordKinds(Tokens(arg[|ActionsPrefix|..])) else []
  }

  /** Every argument parses: its reset value and its action tokens are ones std::stoi accepts. */
  predicate GoodArg(arg: string)
  {
    if StartsWith(arg, ResetPrefix) then Decimal.ParseInt(arg[|ResetPrefix|..]).Some?
    else if StartsWith(arg, ActionsPrefix) then
      var ts := Tokens(arg[|ActionsPrefix|..]);
      forall i :: 0 <= i < |ts| ==> GoodToken(ts[i])
    else true
  }

  /** LastRemainder, unfolded at the last argument. */
  lemma LastRemainderStep(init: seq<string>, arg: string, prefix: string)
    ensures LastRemainder(init + [arg], prefix)
         == if StartsWith(arg, prefix) then Some(arg[|prefix|..]) else LastRemainder(init, prefix)
  {
    assert (init + [arg])[..|init|] == init;
  }

  /** AllKeywordKinds, unfolded at the last argument. */
  lemma AllKeywordKindsStep(init: seq<string>, arg: string)
    ensures AllKeywordKinds(init + [arg]) == AllKeywordKinds(init)
      + if StartsWith(arg, ActionsPrefix) then KeywordKinds(Tokens(arg[|ActionsPrefix|..])) else []
  {
    assert (init + [arg])[..|init|] == init;
  }

  /** Parsing one argument more is one more ApplyArg. */
  lemma ApplyArgsSnoc(d: Draft, init: seq<string>, arg: string)
    requires ApplyArgs(d, init + [arg]).Ok?
    ensures ApplyArgs(d, init).Ok?
    ensures ApplyArgs(d, init + [arg]) == ApplyArg(ApplyArgs(d, init).value, arg)
  {
    ApplyArgsAppend(d, init, [arg]);
  }

  /** The last `reset=` wins; without one the reset period stays. */
  lemma {:induction false} ResetFromArgs(d: Draft, args: seq<string>)
    requires ApplyArgs(d, args).Ok?
    ensures match LastRemainder(args, ResetPrefix)
            case None => ApplyArgs(d, args).value.resetPeriod == d.resetPeriod
            case Some(x) => Decimal.ParseInt(x) == Some(ApplyArgs(d, args).value.resetPeriod)
    decreases |args|
  {
    if args != [] {
      var init, arg := args[..|args| - 1], args[|args| - 1];
      assert args == init + [arg];
      ApplyArgsSnoc(d, init, arg);
      ResetFromArgs(d, init);
      LastRemainderStep(init, arg, ResetPrefix);
    }
  }

  /** The last `reboot=` wins, with the whole remainder as the message. */
  lemma {:induction false} RebootFromArgs(d: Draft, args: seq<string>)
    requires ApplyArgs(d, args).Ok?
    ensures ApplyArgs(d, args).value.rebootMsg == LastRemainder(args, RebootPrefix).GetOr(d.rebootMsg)
    decreases |args|
  {
    if args != [] {
      var init, arg := args[..|args| - 1], args[|args| - 1];
      assert args == init + [arg];
      ApplyArgsSnoc(d, init, arg);
      RebootFromArgs(d, init);
      LastRemainderStep(init, arg, RebootPrefix);
    }
  }

  /** The last `command=` wins, with the whole remainder as the command. */
  lemma {:induction false} CommandFromArgs(d: Draft, args: seq<string>)
    requires ApplyArgs(d, args).Ok?
    ensures ApplyArgs(d, args).value.failureCommand == LastRemainder(args, CommandPrefix).GetOr(d.failureCommand)
    decreases |args|
  {
    if args != [] {
      var init, arg := args[..|args| - 1], args[|args| - 1];
      assert args == init + [arg];
      ApplyArgsSnoc(d, init, arg);
      CommandFromArgs(d, init);
      LastRemainderStep(init, arg, CommandPrefix);
    }
  }

  /** The action kinds come from the `actions=` arguments, argument after argument. */
  lemma {:induction false} KindsFromArgs(d: Draft, args: seq<string>)
    requires ApplyArgs(d, args).Ok?
    ensures Kinds(ApplyArgs(d, args).value.actions) == Kinds(d.actions) + AllKeywordKinds(args)
    decreases |args|
  {
    if args != [] {
      var init, arg := args[..|args| - 1], args[|args| - 1];
      assert args == init + [arg];
      ApplyArgsSnoc(d, init, arg);
      KindsFromArgs(d, init);
      AllKeywordKindsStep(init, arg);
    }
  }

  /**
   * What the parse keeps from each kind of argument: the last `reset=`,
   * `reboot=` and `command=` win, and the actions come from the `actions=`
   * arguments in order.
   */
  lemma FieldsFromArgs(d: Draft, args: seq<string>)
    requires ApplyArgs(d, args).Ok?
    ensures var r := ApplyArgs(d, args).value;
      && (match LastRemainder(args, ResetPrefix)
          case None => r.resetPeriod == d.resetPeriod
          case Some(x) => Decimal.ParseInt(x) == Some(r.resetPeriod))
      && r.rebootMsg == LastRemainder(args, RebootPrefix).GetOr(d.rebootMsg)
      && r.failureCommand == LastRemainder(args, CommandPrefix).GetOr(d.failureCommand)
      && Kinds(r.actions) == Kinds(d.actions) + AllKeywordKinds(args)
  {
    ResetFromArgs(d, args);
    RebootFromArgs(d, args);
    CommandFromArgs(d, args);
    KindsFromArgs(d, args);
  }

  /** Reads an optional text the way the record stores it: an empty text is a null pointer. */
  function NonEmpty(text: Option<string>): Option<string>
  {
    match text
    case Some(t) => if t == [] then None else Some(t)
    case None => None
  }

  /**
   * The submitted record: the reset period of the last `reset=` (0 without
   * one), the action kinds of the keyword tokens in order, and the remainder
   * of the last `reboot=` and `command=`, absent when missing or empty.
   */
  lemma ParsedRecord(args: seq<string>)
    requires ParseFailure(args).Ok?
    ensures var p := ParseFailure(args).value;
      && (match LastRemainder(args, ResetPrefix)
          case None => p.resetPeriod == 0
          case Some(x) => Decimal.ParseInt(x) == Some(p.resetPeriod))
      && p.rebootMsg == NonEmpty(LastRemainder(args, RebootPrefix))
      && p.command == NonEmpty(LastRemainder(args, CommandPrefix))
      && Kinds(p.actions) == AllKeywordKinds(args)
      && |p.actions| == |AllKeywordKinds(args)|
  {
    FieldsFromArgs(Initial, args);
    var p := ParseFailure(args).value;
    assert |Kinds(p.actions)| == |p.actions| by {
      KindsLength(p.actions);
    }
  }

  lemma {:induction false} KindsLength(acts: seq<Action>)
    ensures |Kinds(acts)| == |acts|
    decreases |acts|
  {
    if acts != [] {
      KindsLength(acts[..|acts| - 1]);
    }
  }

  /** The parse fails (std::stoi throws) exactly when some argument holds a value or token it cannot read. */
  lemma {:induction false} ParseSucceedsIff(d: Draft, args: seq<string>)
    ensures ApplyArgs(d, args).Ok? <==> forall i :: 0 <= i < |args| ==> GoodArg(args[i])
    decreases |args|
  {
    if args != [] {
      var arg := args[0];
      PrefixesExclusive(arg);
      if StartsWith(arg, ActionsPrefix) {
        TokensParseIff(d.actions, Tokens(arg[|ActionsPrefix|..]));
      }
      if ApplyArg(d, arg).Ok? {
        ParseSucceedsIff(ApplyArg(d, arg).value, args[1..]);
        assert forall i :: 1 <= i < |args| ==> args[i] == args[1..][i - 1];
      }
    }
  }

  lemma {:induction false} ExampleNumbers()
    ensures Decimal.ParseInt("10") == Some(10) && Decimal.ParseInt("5") == Some(5)
  {
    assert Decimal.AllDigits("10") && Decimal.AllDigits("5");
    assert "10"[..1] == "1" && "1"[..0] == "" && "5"[..0] == "";
    assert Decimal.Value("1") == 1 && Decimal.Value("5") == 5;
    assert Decimal.Value("10") == 10;
  }

  lemma ExampleActionTokens()
    ensures ApplyTokens([], ["restart", "10", "reboot", "5", "run"])
         == Ok([Action(Restart, 10), Action(Reboot, 5), Action(RunCommand, 0)])
  {
    ExampleNumbers();
    var t := ["restart", "10", "reboot", "5", "run"];
    var a1 := [Action(Restart, 0)];
    var a2 := [Action(Restart, 10)];
    var a3 := [Action(Restart, 10), Action(Reboot, 0)];
    var a4 := [Action(Restart, 10), Action(Reboot, 5)];
    var a5 := [Action(Restart, 10), Action(Reboot, 5), Action(RunCommand, 0)];
    assert [] + [Action(Restart, 0)] == a1;
    assert ApplyToken([], t[0]) == Ok(a1);
    assert WithLastDelay(a1, 10) == a2;
    assert ApplyToken(a1, t[1]) == Ok(a2);
    assert a2 + [Action(Reboot, 0)] == a3;
    assert ApplyToken(a2, t[2]) == Ok(a3);
    assert WithLastDelay(a3, 5) == a4;
    assert ApplyToken(a3, t[3]) == Ok(a4);
    assert a4 + [Action(RunCommand, 0)] == a5;
    assert ApplyToken(a4, t[4]) == Ok(a5);
    assert t[4..][1..] == [];
    assert ApplyTokens(a4, t[4..]) == Ok(a5);
    assert t[3..][1..] == t[4..];
    assert ApplyTokens(a3, t[3..]) == ApplyTokens(a4, t[4..]);
    assert t[2..][1..] == t[3..];
    assert ApplyTokens(a2, t[2..]) == ApplyTokens(a3, t[3..]);
    assert t[1..][1..] == t[2..];
    assert ApplyTokens(a1, t[1..]) == ApplyTokens(a2, t[2..]);
  }

  /** The example list: restart/10/reboot/5/run. */
  const ExampleList := JoinSlash(["restart", "10", "reboot", "5", "run"])

  /** The example list splits back into its five tokens. */
  lemma ExampleTokens()
    ensures Tokens(ExampleList) == ["restart", "10", "reboot", "5", "run"]
  {
    var ts := ["restart", "10", "reboot", "5", "run"];
    assert Slash !in ts[0] && Slash !in ts[1] && Slash !in ts[2] && Slash !in ts[3] && Slash !in ts[4];
    TokensOfJoin(ts);
  }

  /** The one `actions=` argument of the example turns the initial draft into the three actions. */
  lemma ExampleArg()
    ensures ApplyArg(Initial, ActionsPrefix + ExampleList)
         == Ok(Draft(0, [Action(Restart, 10), Action(Reboot, 5), Action(RunCommand, 0)], "", ""))
  {
    var arg := ActionsPrefix + ExampleList;
    assert arg[|ActionsPrefix|..] == ExampleList;
    assert StartsWith(arg, ActionsPrefix);
    assert arg[0] != ResetPrefix[0];
    ExampleTokens();
    ExampleActionTokens();
  }

  /** The example list, written out, is the five tokens joined with '/'. */
  lemma ExampleListSpelling()
    ensures ExampleList == "restart/10/reboot/5/run"
  {
    var ts := ["restart", "10", "reboot", "5", "run"];
    assert [ts[3]] + ts[4..] == ts[3..];
    JoinSlashCons(ts[3], ts[4..]);
    assert "5/run" == "5" + [Slash] + "run";
    assert [ts[2]] + ts[3..] == ts[2..];
    JoinSlashCons(ts[2], ts[3..]);
    assert "reboot/5/run" == "reboot" + [Slash] + "5/run";
    assert [ts[1]] + ts[2..] == ts[1..];
    JoinSlashCons(ts[1], ts[2..]);
    assert "10/reboot/5/run" == "10" + [Slash] + "reboot/5/run";
    assert [ts[0]] + ts[1..] == ts;
    JoinSlashCons(ts[0], ts[1..]);
    assert "restart/10/reboot/5/run" == "restart" + [Slash] + "10/reboot/5/run";
  }

  /** The example argument, written out, is the actions prefix followed by the example list. */
  lemma ExampleSpelling()
    ensures "actions=restart/10/reboot/5/run" == ActionsPrefix + ExampleList
  {
    ExampleListSpelling();
    assert "actions=restart/10/reboot/5/run" == "actions=" + "restart/10/reboot/5/run";
  }

  /** `actions=restart/10/reboot/5/run` yields Restart after 10, Reboot after 5, Run Command after 0. */
  lemma ExampleActions()
    ensures ParseFailure(["actions=restart/10/reboot/5/run"])
         == Ok(FailureActions(0, [Action(Restart, 10), Action(Reboot, 5), Action(RunCommand, 0)], None, None))
  {
    var arg := ActionsPrefix + ExampleList;
    var acts := [Action(Restart, 10), Action(Reboot, 5), Action(RunCommand, 0)];
    ExampleSpelling();
    ExampleArg();
    assert [arg][1..] == [];
    assert ApplyArgs(Initial, [arg]) == Ok(Draft(0, acts, "", ""));
  }

  /** `reset=300` alone yields reset period 300, no actions, no reboot message, no command. */
  lemma ExampleReset()
    ensures ParseFailure(["reset=300"]) == Ok(FailureActions(300, [], None, None))
  {
    assert "reset=300"[|ResetPrefix|..] == "300";
    assert Decimal.Value("300") == 300 by {
      assert "300"[..2] == "30" && "30"[..1] == "3";
    }
  }

  /** Every delay in the list is a value std::stoi can return. */
  predicate DelaysFit(acts: seq<Action>)
  {
    forall i :: 0 <= i < |acts| ==> acts[i].delay <= Decimal.IntMax
  }

  lemma {:induction false} TokensKeepFit(acts: seq<Action>, tokens: seq<string>)
    requires DelaysFit(acts) && ApplyTokens(acts, tokens).Ok?
    ensures DelaysFit(ApplyTokens(acts, tokens).value)
    decreases |tokens|
  {
    if tokens != [] {
      TokensKeepFit(ApplyToken(acts, tokens[0]).value, tokens[1..]);
    }
  }

  lemma {:induction false} ArgsKeepFit(d: Draft, args: seq<string>)
    requires d.resetPeriod <= Decimal.IntMax && DelaysFit(d.actions) && ApplyArgs(d, args).Ok?
    ensures ApplyArgs(d, args).value.resetPeriod <= Decimal.IntMax
    ensures DelaysFit(ApplyArgs(d, args).value.actions)
    decreases |args|
  {
    if args != [] {
      var arg := args[0];
      if StartsWith(arg, ActionsPrefix) && !StartsWith(arg, ResetPrefix) {
        TokensKeepFit(d.actions, Tokens(arg[|ActionsPrefix|..]));
      }
      ArgsKeepFit(ApplyArg(d, arg).value, args[1..]);
    }
  }

  /** Every number in a submitted record came from std::stoi, so it fits in an int and in a DWORD. */
  lemma ParsedValuesFit(args: seq<string>)
    requires ParseFailure(args).Ok?
    ensures ParseFailure(args).value.resetPeriod <= Decimal.IntMax
    ensures DelaysFit(ParseFailure(args).value.actions)
  {
    ArgsKeepFit(Initial, args);
  }
}
