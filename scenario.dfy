/** A sign-up workflow run end to end through the engine with the two
    handlers of this repository: a human `fillUserInfo` step, the automatic
    `validateEmail` check, and a human `done` step guarded by
    `emailVerified == true`. */
module Scenario {
  import opened Wrappers
  import opened Values
  import opened Definition
  import opened Resolver
  import opened Handlers
  import opened Dispatcher
  import opened Validator
  import opened Engine

  const GUARD := "emailVerified == true"

  /** MVEL on the one guard of the workflow: the variable must exist, and
      the comparison is true only for boolean `true`. */
  function Eval(expr: string, ctx: Context): EvalOutcome {
    if expr != GUARD || "emailVerified" !in ctx then Raised
    else if ctx["emailVerified"] == Bool(true) then True
    else False
  }

  const HOST := Host(Eval, (pattern: string, text: string) => true, (text: string) => false)

  const FILL := ActionDef("fillUserInfo", "user fills in the profile", HUMAN, [ParamDef("email", "string", false, "")])
  const VALIDATE := ActionDef("validateEmail", "the email is checked", AUTOMATIC, [])
  const DONE := ActionDef("done", "sign-up finished", HUMAN, [])

  const TO_FILL := Transition("start", "fillUserInfo", [])
  const TO_VALIDATE := Transition("fillUserInfo", "validateEmail", [])
  const TO_DONE := Transition("validateEmail", "done", [[GUARD]])
  const SIGNUP := Workflow("signup", [FILL, VALIDATE, DONE], [TO_FILL, TO_VALIDATE, TO_DONE])

  /** A definition whose first action is the one the instance starts at. */
  const START := ActionDef("start", "entry point", HUMAN, [])
  const START_TO_VALIDATE := Transition("start", "validateEmail", [])
  const STARTED := Workflow("started", [START, VALIDATE, DONE], [START_TO_VALIDATE, TO_DONE])

  const FUEL := 10
  const INITIAL := InstanceState("start", None, [], map[])
  const MAIL := map["email" := Str("a@b.com")]
  const VERIFIED := MAIL["emailVerified" := Bool(true)]

  /** The guard of `validateEmail -> done` holds exactly when the email was
      verified. */
  lemma GuardHolds(ctx: Context)
    ensures Eligible(TO_DONE, ctx, Eval) <==> "emailVerified" in ctx && ctx["emailVerified"] == Bool(true)
  {
    var g := TO_DONE.conditionGroups[0];
    assert !IsBlank(g[0]) by { assert !IsJavaWhitespace(g[0][0]); }
    assert TO_DONE.conditionGroups == [g];
  }

  /** The resolver on the sign-up definition, one transition at a time. */
  lemma NextFromStart(ctx: Context)
    ensures NextActions(SIGNUP, "start", ctx, Eval) == Success([FILL])
  {
    var actions := SIGNUP.actions;
    assert Next(actions, [], "start", ctx, Eval) == Success([]);
    NextAppend(actions, [], TO_FILL, "start", ctx, Eval, [], FILL);
    assert [] + [TO_FILL] == [TO_FILL] && [] + [FILL] == [FILL];
    NextSkip(actions, [TO_FILL], TO_VALIDATE, "start", ctx, Eval);
    NextSkip(actions, [TO_FILL, TO_VALIDATE], TO_DONE, "start", ctx, Eval);
    assert [TO_FILL] + [TO_VALIDATE] == [TO_FILL, TO_VALIDATE];
    assert [TO_FILL, TO_VALIDATE] + [TO_DONE] == SIGNUP.transitions;
  }

  lemma NextFromFill(ctx: Context)
    ensures NextActions(SIGNUP, "fillUserInfo", ctx, Eval) == Success([VALIDATE])
  {
    var actions := SIGNUP.actions;
    assert Next(actions, [], "fillUserInfo", ctx, Eval) == Success([]);
    NextSkip(actions, [], TO_FILL, "fillUserInfo", ctx, Eval);
    assert [] + [TO_FILL] == [TO_FILL];
    assert FindAction(actions, "validateEmail") == Some(VALIDATE);
    NextAppend(actions, [TO_FILL], TO_VALIDATE, "fillUserInfo", ctx, Eval, [], VALIDATE);
    assert [] + [VALIDATE] == [VALIDATE];
    NextSkip(actions, [TO_FILL, TO_VALIDATE], TO_DONE, "fillUserInfo", ctx, Eval);
    assert [TO_FILL] + [TO_VALIDATE] == [TO_FILL, TO_VALIDATE];
    assert [TO_FILL, TO_VALIDATE] + [TO_DONE] == SIGNUP.transitions;
  }

  /** From `validateEmail`, `done` is offered exactly when the email was
      verified; the guard raises while `emailVerified` is missing. */
  lemma NextFromValidate(ctx: Context)
    ensures "emailVerified" in ctx && ctx["emailVerified"] == Bool(true) ==>
              NextActions(SIGNUP, "validateEmail", ctx, Eval) == Success([DONE])
    ensures !("emailVerified" in ctx && ctx["emailVerified"] == Bool(true)) ==>
              NextActions(SIGNUP, "validateEmail", ctx, Eval) == Success([])
  {
    var actions := SIGNUP.actions;
    assert Next(actions, [], "validateEmail", ctx, Eval) == Success([]);
    NextSkip(actions, [], TO_FILL, "validateEmail", ctx, Eval);
    assert [] + [TO_FILL] == [TO_FILL];
    NextSkip(actions, [TO_FILL], TO_VALIDATE, "validateEmail", ctx, Eval);
    assert [TO_FILL] + [TO_VALIDATE] == [TO_FILL, TO_VALIDATE];
    assert [TO_FILL, TO_VALIDATE] + [TO_DONE] == SIGNUP.transitions;
    GuardHolds(ctx);
    if "emailVerified" in ctx && ctx["emailVerified"] == Bool(true) {
      FindActionIsFirst(actions, "done", 2);
      NextAppend(actions, [TO_FILL, TO_VALIDATE], TO_DONE, "validateEmail", ctx, Eval, [], DONE);
      assert [] + [DONE] == [DONE];
    } else {
      NextSkip(actions, [TO_FILL, TO_VALIDATE], TO_DONE, "validateEmail", ctx, Eval);
    }
  }

  /** The human step of the sign-up: `fillUserInfo` is offered from `start`,
      its optional, unpatterned `email` passes validation whatever is
      submitted, and the handler keeps the context it is given. */
  lemma FillStep(params: Context)
    ensures HumanStep(SIGNUP, HOST, RepositoryHandlers, INITIAL, "fillUserInfo", params)
            == Success(InstanceState("fillUserInfo", Some("fillUserInfo"), ["fillUserInfo"], params))
  {
    NextFromStart(map[]);
    assert FindAction(SIGNUP.actions, "fillUserInfo") == Some(FILL);
    assert Validate(FILL.parameters, params, HOST) == Pass by {
      assert CheckParam(FILL.parameters[0], params, HOST) == Pass;
      assert FILL.parameters[1..] == [];
    }
    RepositoryResolution();
    assert map[] + params == params;
    assert INITIAL.history + ["fillUserInfo"] == ["fillUserInfo"];
  }

  /** The cascade after `fillUserInfo`: `validateEmail` runs and marks the
      email verified, after which no automatic action is eligible. */
  lemma ValidateTurn()
    ensures var after := InstanceState("fillUserInfo", Some("fillUserInfo"), ["fillUserInfo"], MAIL);
            AutoStep(SIGNUP, HOST, RepositoryHandlers, after)
            == Success(Some(InstanceState("validateEmail", Some("fillUserInfo"), ["fillUserInfo", "validateEmail"], VERIFIED)))
  {
    NextFromFill(MAIL);
    RepositoryResolution();
    assert ["fillUserInfo"] + ["validateEmail"] == ["fillUserInfo", "validateEmail"];
  }

  lemma VerifiedStops()
    ensures var verified := InstanceState("validateEmail", Some("fillUserInfo"), ["fillUserInfo", "validateEmail"], VERIFIED);
            && NextActions(SIGNUP, "validateEmail", VERIFIED, Eval) == Success([DONE])
            && AutoStep(SIGNUP, HOST, RepositoryHandlers, verified) == Success(None)
  {
    NextFromValidate(VERIFIED);
  }

  /** Triggering `fillUserInfo` with an email: the human step, then
      `validateEmail` automatically, and `done` is the one action offered. */
  lemma SignupWithEmail()
    ensures Trigger(SIGNUP, HOST, RepositoryHandlers, INITIAL, "fillUserInfo", MAIL, FUEL)
            == Success(Committed(
                 InstanceState("validateEmail", Some("fillUserInfo"), ["fillUserInfo", "validateEmail"], VERIFIED),
                 [DONE]))
  {
    var after := InstanceState("fillUserInfo", Some("fillUserInfo"), ["fillUserInfo"], MAIL);
    var verified := InstanceState("validateEmail", Some("fillUserInfo"), ["fillUserInfo", "validateEmail"], VERIFIED);
    FillStep(MAIL);
    ValidateTurn();
    VerifiedStops();
    var step := AutoSteps(SIGNUP, HOST, RepositoryHandlers);
    assert step(after) == Success(Some(verified));
    assert step(verified) == Success(None);
    assert Iterate(step, verified, FUEL - 1) == Success(verified);
    assert Cascade(SIGNUP, HOST, RepositoryHandlers, after, FUEL) == Success(verified);
    assert OnlyHuman([DONE]) == [DONE];
  }

  /** Triggering `fillUserInfo` without an email: `validateEmail` fails, so
      the whole execution fails and nothing is committed. */
  lemma SignupWithoutEmail()
    ensures Trigger(SIGNUP, HOST, RepositoryHandlers, INITIAL, "fillUserInfo", map[], FUEL)
            == Failure(AutomaticActionFailed("validateEmail"))
  {
    var after := InstanceState("fillUserInfo", Some("fillUserInfo"), ["fillUserInfo"], map[]);
    FillStep(map[]);
    NextFromFill(map[]);
    RepositoryResolution();
    var step := AutoSteps(SIGNUP, HOST, RepositoryHandlers);
    assert step(after) == Failure(AutomaticActionFailed("validateEmail"));
  }

  /** Once the email is verified, `fillUserInfo` is no longer offered. */
  lemma NoSecondFill(params: Context)
    ensures var verified := InstanceState("validateEmail", Some("fillUserInfo"), ["fillUserInfo", "validateEmail"], VERIFIED);
            Trigger(SIGNUP, HOST, RepositoryHandlers, verified, "fillUserInfo", params, FUEL)
            == Failure(NotAllowed("fillUserInfo"))
  {
    NextFromValidate(VERIFIED);
    assert !HasActionId([DONE], "fillUserInfo");
  }

  /** No handler of this repository is named `DoneAction`. */
  lemma DoneUnresolved()
    ensures Resolve(RepositoryHandlers, "done") == Failure(NoHandler("done"))
  {
    var name := "DoneAction";
    assert "done"[1..] == "one";
    assert ExpectedClassName("done") == Success(name) by { assert name == "D" + "one" + SUFFIX; }
    assert name != "ValidateEmailAction" && name != "FillUserInfoAction" by {
      assert name[0] != "ValidateEmailAction"[0] && name[0] != "FillUserInfoAction"[0];
    }
    assert IndexOfClass(RepositoryHandlers, name) == None;
  }

  /** `done` is offered, but no handler of this repository is named after
      it, so triggering it fails on the dispatcher. */
  lemma DoneHasNoHandler(params: Context)
    ensures var verified := InstanceState("validateEmail", Some("fillUserInfo"), ["fillUserInfo", "validateEmail"], VERIFIED);
            Trigger(SIGNUP, HOST, RepositoryHandlers, verified, "done", params, FUEL)
            == Failure(NoHandler("done"))
  {
    NextFromValidate(VERIFIED);
    assert [DONE][0].actionId == "done";
    FindActionIsFirst(SIGNUP.actions, "done", 2);
    assert Validate(DONE.parameters, params, HOST) == Pass;
    DoneUnresolved();
  }

  /** An instance created at the definition's first action cannot trigger
      that action again: only the actions its transitions lead to are
      offered, and here that is the automatic `validateEmail`. */
  lemma StartNotOffered(params: Context)
    ensures Trigger(STARTED, HOST, RepositoryHandlers, INITIAL, "start", params, FUEL)
            == Failure(NotAllowed("start"))
  {
    var actions := STARTED.actions;
    assert Next(actions, [], "start", map[], Eval) == Success([]);
    assert FindAction(actions, "validateEmail") == Some(VALIDATE);
    NextAppend(actions, [], START_TO_VALIDATE, "start", map[], Eval, [], VALIDATE);
    assert [] + [START_TO_VALIDATE] == [START_TO_VALIDATE] && [] + [VALIDATE] == [VALIDATE];
    NextSkip(actions, [START_TO_VALIDATE], TO_DONE, "start", map[], Eval);
    assert [START_TO_VALIDATE] + [TO_DONE] == STARTED.transitions;
    assert !HasActionId([VALIDATE], "start");
  }

  /** The sign-up run on a fresh instance through `executeHumanAndAutomatics`:
      the response offers `done` with the verified context, and the instance
      now records both actions. */
  method SignupRun() returns (r: Result<Response, Error>, current: string, history: seq<string>)
    ensures r == Success(Response([DONE], VERIFIED))
    ensures current == "validateEmail" && history == ["fillUserInfo", "validateEmail"]
  {
    var instance := new WorkflowInstance.Start("signup", "alice", "start");
    SignupWithEmail();
    r := ExecuteHumanAndAutomatics(SIGNUP, HOST, RepositoryHandlers, instance, "fillUserInfo", MAIL, FUEL);
    current, history := instance.currentActionId, instance.history;
  }

  /** The same run without an email: the automatic step fails and the
      instance keeps its starting state, the human step included. */
  method SignupRunWithoutEmail() returns (r: Result<Response, Error>, current: string, history: seq<string>,
                                          context: Context)
    ensures r == Failure(AutomaticActionFailed("validateEmail"))
    ensures current == "start" && history == [] && context == map[]
  {
    var instance := new WorkflowInstance.Start("signup", "alice", "start");
    SignupWithoutEmail();
    r := ExecuteHumanAndAutomatics(SIGNUP, HOST, RepositoryHandlers, instance, "fillUserInfo", map[], FUEL);
    current, history, context := instance.currentActionId, instance.history, instance.context;
  }
}
