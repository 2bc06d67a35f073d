/**
 * The automation commands of `src/bb/automation.ts`: what the builders print, against the argument
 * list each command is meant to pass, for arbitrary names, prompts, scripts and ids.
 */
module Automation {
  import opened Prelude
  import opened Shell

  datatype Trigger = Cron(cron: string, timezone: string) | Once(at: string)

  datatype AutomationTarget =
    | ProjectDefault
    | TargetThread(threadId: string)
    | Environment(environmentId: string)
    | NewWorktree(baseBranch: string)

  datatype Source = InlineScript(script: string) | ScriptFile(path: string, hostId: Option<string>)

  /** `env` is the serialized environment. */
  datatype Definition =
    | Agent(projectId: string, name: string, trigger: Trigger, prompt: string, providerId: string, model: string,
            reasoningLevel: Option<string>, serviceTier: Option<string>, permissionMode: string,
            target: AutomationTarget, timeoutMs: int, maximumBytes: int)
    | Script(projectId: string, name: string, trigger: Trigger, source: Source, interpreter: string, timeoutMs: int,
             env: Option<string>)

  datatype BuildError = TimeoutOutOfRange | ResultContractOutOfRange | LimitOutOfRange

  const MAX_AGENT_TIMEOUT_MS := 14_400_000
  const MAX_RESULT_BYTES := 1_048_576

  function Digits(n: nat): string {
    if n < 10 then [('0' as int + n) as char] else Digits(n / 10) + [('0' as int + n % 10) as char]
  }

  function Decimal(n: int): string {
    if n < 0 then "-" + Digits(-n) else Digits(n)
  }

  /** An optional text counts only when it is not empty. */
  predicate Given(o: Option<string>) {
    o.Some? && o.value != ""
  }

  // ----- what is printed

  function Flag(name: string, value: string): seq<string> {
    ["--" + name, SingleQuote(value)]
  }

  function TriggerArgs(t: Trigger): seq<string> {
    match t
    case Cron(cron, timezone) => Flag("cron", cron) + Flag("timezone", timezone)
    case Once(at) => Flag("at", at)
  }

  function TargetArgs(t: AutomationTarget): seq<string> {
    match t
    case ProjectDefault => []
    case TargetThread(id) => Flag("target-thread", id)
    case Environment(id) => Flag("environment", id)
    case NewWorktree(branch) => ["--new-environment", "worktree"] + Flag("base-branch", branch)
  }

  function OptionalFlag(name: string, value: Option<string>): seq<string> {
    if Given(value) then Flag(name, value.value) else []
  }

  function SourceArgs(s: Source): seq<string> {
    match s
    case InlineScript(script) => Flag("script", script)
    case ScriptFile(path, hostId) => Flag("script-file", path) + OptionalFlag("host", hostId)
  }

  function CommonArgs(d: Definition): seq<string> {
    Flag("project", d.projectId) + Flag("name", d.name) + TriggerArgs(d.trigger)
  }

  function DefinitionArgs(d: Definition): Result<seq<string>, BuildError> {
    match d
    case Agent(_, _, _, prompt, providerId, model, reasoningLevel, serviceTier, permissionMode, target, timeoutMs,
               maximumBytes) =>
      if timeoutMs < 1 || timeoutMs > MAX_AGENT_TIMEOUT_MS then Err(TimeoutOutOfRange)
      else if maximumBytes < 1 || maximumBytes > MAX_RESULT_BYTES then Err(ResultContractOutOfRange)
      else Ok(CommonArgs(d) + Flag("prompt", prompt) + Flag("provider", providerId) + Flag("model", model)
              + OptionalFlag("reasoning", reasoningLevel) + OptionalFlag("service-tier", serviceTier)
              + Flag("permission-mode", permissionMode) + TargetArgs(target))
    case Script(_, _, _, source, interpreter, timeoutMs, env) =>
      Ok(CommonArgs(d) + SourceArgs(source) + Flag("interpreter", interpreter) + Flag("timeout", Decimal(timeoutMs))
         + if env.Some? then Flag("env-json", env.value) else [])
  }

  function Command(subcommand: string, args: seq<string>): string {
    Join(["bb", "automation", subcommand] + args + ["--json"])
  }

  function BuildCreate(d: Definition): Result<string, BuildError> {
    match DefinitionArgs(d)
    case Ok(args) => Ok(Command("create", args))
    case Err(e) => Err(e)
  }

  function BuildUpdate(automationId: string, d: Definition): Result<string, BuildError> {
    match DefinitionArgs(d)
    case Ok(args) => Ok(Command("update", [SingleQuote(automationId)] + args))
    case Err(e) => Err(e)
  }

  function BuildShow(projectId: string, automationId: string): string {
    Command("show", [SingleQuote(automationId)] + Flag("project", projectId))
  }

  function BuildList(projectId: string): string {
    Command("list", Flag("project", projectId))
  }

  datatype Action = Pause | Resume | Delete

  function ActionName(a: Action): string {
    match a
    case Pause => "pause"
    case Resume => "resume"
    case Delete => "delete"
  }

  function BuildAction(action: Action, projectId: string, automationId: string): string {
    Command(ActionName(action),
            [SingleQuote(automationId)] + Flag("project", projectId) + if action == Delete then ["--yes"] else [])
  }

  function BuildRun(projectId: string, automationId: string, idempotencyKey: string): string {
    Command("run", [SingleQuote(automationId)] + Flag("project", projectId) + Flag("idempotency-key", idempotencyKey))
  }

  function BuildRuns(projectId: string, automationId: string, limit: int): Result<string, BuildError> {
    if limit < 1 || limit > 200 then Err(LimitOutOfRange)
    else Ok(Command("runs", [SingleQuote(automationId)] + Flag("project", projectId) + Flag("limit", Decimal(limit))))
  }

  // ----- what is meant

  function TriggerArgv(t: Trigger): seq<string> {
    match t
    case Cron(cron, timezone) => ["--cron", cron, "--timezone", timezone]
    case Once(at) => ["--at", at]
  }

  function TargetArgv(t: AutomationTarget): seq<string> {
    match t
    case ProjectDefault => []
    case TargetThread(id) => ["--target-thread", id]
    case Environment(id) => ["--environment", id]
    case NewWorktree(branch) => ["--new-environment", "worktree", "--base-branch", branch]
  }

  function OptionalArgv(name: string, value: Option<string>): seq<string> {
    match value
    case None => []
    case Some(text) => if |text| > 0 then [name, text] else []
  }

  function SourceArgv(s: Source): seq<string> {
    match s
    case InlineScript(script) => ["--script", script]
    case ScriptFile(path, hostId) => ["--script-file", path] + OptionalArgv("--host", hostId)
  }

  /** The options a definition stands for, each followed by its own text. */
  function DefinitionArgv(d: Definition): seq<string> {
    ["--project", d.projectId, "--name", d.name] + TriggerArgv(d.trigger)
    + match d
      case Agent(_, _, _, prompt, providerId, model, reasoningLevel, serviceTier, permissionMode, target, _, _) =>
        ["--prompt", prompt, "--provider", providerId, "--model", model]
        + OptionalArgv("--reasoning", reasoningLevel) + OptionalArgv("--service-tier", serviceTier)
        + ["--permission-mode", permissionMode] + TargetArgv(target)
      case Script(_, _, _, source, interpreter, timeoutMs, env) =>
        SourceArgv(source) + ["--interpreter", interpreter, "--timeout", Decimal(timeoutMs)]
        + if env.Some? then ["--env-json", env.value] else []
  }

  function CommandArgv(subcommand: string, args: seq<string>): seq<string> {
    ["bb", "automation", subcommand] + args + ["--json"]
  }

  predicate Buildable(d: Definition) {
    d.Agent? ==> 1 <= d.timeoutMs <= 14_400_000 && 1 <= d.maximumBytes <= 1_048_576
  }

  /** The number a decimal text stands for. */
  function ValueOf(digits: string): nat {
    if digits == "" then 0
    else
      var last := digits[|digits| - 1];
      ValueOf(digits[..|digits| - 1]) * 10 + if '0' <= last <= '9' then last as int - 48 else 0
  }

  /** Digits without a leading zero, but for zero itself. */
  predicate Numeral(s: string) {
    s != "" && (forall c :: c in s ==> '0' <= c <= '9') && (s[0] == '0' ==> s == "0")
  }

  /** A number is printed as its own numeral, with a sign exactly when it is negative. */
  lemma {:induction false} DecimalExactly(n: int)
    ensures var magnitude := if n < 0 then Decimal(n)[1..] else Decimal(n);
            && Numeral(magnitude) && ValueOf(magnitude) == (if n < 0 then -n else n)
            && (n < 0 ==> Decimal(n) == "-" + magnitude)
  {
    DigitsExactly(if n < 0 then -n else n);
    assert n < 0 ==> Decimal(n)[1..] == Digits(-n);
  }

  lemma {:induction false} DigitsExactly(n: nat)
    ensures Numeral(Digits(n)) && ValueOf(Digits(n)) == n && (Digits(n)[0] == '0' <==> n == 0)
  {
    if n >= 10 {
      DigitsExactly(n / 10);
      var digits := Digits(n);
      assert digits[..|digits| - 1] == Digits(n / 10) && digits[0] == Digits(n / 10)[0];
    } else {
      assert Digits(n)[..0] == "";
    }
  }

  // ----- the one is read as the other

  predicate OptionName(name: string) {
    name != "" && forall i :: 0 <= i < |name| ==> Ordinary(name[i])
  }

  lemma FlagRenders(name: string, option: string, value: string)
    requires OptionName(name) && option == "--" + name
    ensures RendersAll(Flag(name, value), [option, value])
  {
  }

  lemma BareRenders(word: string)
    requires OptionName(word)
    ensures RendersAll([word], [word])
  {
  }

  lemma QuotedRenders(value: string)
    ensures RendersAll([SingleQuote(value)], [value])
  {
  }

  lemma TriggerRenders(t: Trigger)
    ensures RendersAll(TriggerArgs(t), TriggerArgv(t))
  {
    hide RendersAll, Flag;
    match t
    case Cron(cron, timezone) =>
      FlagRenders("cron", "--cron", cron);
      FlagRenders("timezone", "--timezone", timezone);
      RendersConcat(Flag("cron", cron), ["--cron", cron], Flag("timezone", timezone), ["--timezone", timezone]);
      assert ["--cron", cron] + ["--timezone", timezone] == TriggerArgv(t);
    case Once(at) => FlagRenders("at", "--at", at);
  }

  lemma {:induction false} TargetRenders(t: AutomationTarget)
    ensures RendersAll(TargetArgs(t), TargetArgv(t))
  {
    hide Renders, SingleQuote;
    match t
    case ProjectDefault =>
    case TargetThread(id) => FlagRenders("target-thread", "--target-thread", id);
    case Environment(id) => FlagRenders("environment", "--environment", id);
    case NewWorktree(branch) =>
      WorktreeRenders(branch);
  }

  lemma {:induction false} WorktreeRenders(branch: string)
    ensures RendersAll(["--new-environment", "worktree"] + Flag("base-branch", branch),
                       ["--new-environment", "worktree", "--base-branch", branch])
  {
    hide RendersAll, Flag;
    FlagRenders("base-branch", "--base-branch", branch);
    BareRenders("--new-environment");
    BareRenders("worktree");
    RendersConcat(["--new-environment"], ["--new-environment"], ["worktree"], ["worktree"]);
    assert ["--new-environment"] + ["worktree"] == ["--new-environment", "worktree"];
    RendersConcat(["--new-environment", "worktree"], ["--new-environment", "worktree"], Flag("base-branch", branch),
                  ["--base-branch", branch]);
    assert ["--new-environment", "worktree"] + ["--base-branch", branch]
           == ["--new-environment", "worktree", "--base-branch", branch];
  }

  lemma OptionalRenders(name: string, option: string, value: Option<string>)
    requires OptionName(name) && option == "--" + name
    ensures RendersAll(OptionalFlag(name, value), OptionalArgv(option, value))
  {
    hide Renders;
    if Given(value) {
      FlagRenders(name, option, value.value);
    }
  }

  lemma {:induction false} SourceRenders(s: Source)
    ensures RendersAll(SourceArgs(s), SourceArgv(s))
  {
    hide RendersAll, Flag, OptionalFlag, OptionalArgv;
    match s
    case InlineScript(script) => FlagRenders("script", "--script", script);
    case ScriptFile(path, hostId) =>
      FlagRenders("script-file", "--script-file", path);
      OptionalRenders("host", "--host", hostId);
      RendersConcat(Flag("script-file", path), ["--script-file", path], OptionalFlag("host", hostId),
                    OptionalArgv("--host", hostId));
  }

  lemma {:induction false} CommonRenders(d: Definition)
    ensures RendersAll(CommonArgs(d), ["--project", d.projectId, "--name", d.name] + TriggerArgv(d.trigger))
  {
    hide RendersAll, Flag, TriggerArgs, TriggerArgv;
    FlagRenders("project", "--project", d.projectId);
    FlagRenders("name", "--name", d.name);
    TriggerRenders(d.trigger);
    RendersConcat(Flag("project", d.projectId), ["--project", d.projectId], Flag("name", d.name), ["--name", d.name]);
    assert ["--project", d.projectId] + ["--name", d.name] == ["--project", d.projectId, "--name", d.name];
    RendersConcat(Flag("project", d.projectId) + Flag("name", d.name), ["--project", d.projectId, "--name", d.name],
                  TriggerArgs(d.trigger), TriggerArgv(d.trigger));
  }

  lemma {:induction false} ScriptRenders(d: Definition)
    requires d.Script?
    ensures RendersAll(DefinitionArgs(d).value, DefinitionArgv(d))
  {
    hide RendersAll, Flag, CommonArgs, TriggerArgv, SourceArgs, SourceArgv, Decimal;
    var p, a := CommonArgs(d), ["--project", d.projectId, "--name", d.name] + TriggerArgv(d.trigger);
    var q, b := SourceArgs(d.source), SourceArgv(d.source);
    var i, t := Flag("interpreter", d.interpreter), Flag("timeout", Decimal(d.timeoutMs));
    CommonRenders(d);
    SourceRenders(d.source);
    FlagRenders("interpreter", "--interpreter", d.interpreter);
    FlagRenders("timeout", "--timeout", Decimal(d.timeoutMs));
    RendersConcat(i, ["--interpreter", d.interpreter], t, ["--timeout", Decimal(d.timeoutMs)]);
    var rest := ["--interpreter", d.interpreter] + ["--timeout", Decimal(d.timeoutMs)];
    assert rest == ["--interpreter", d.interpreter, "--timeout", Decimal(d.timeoutMs)];
    RendersConcat(q, b, i + t, rest);
    var e := if d.env.Some? then Flag("env-json", d.env.value) else [];
    var f := if d.env.Some? then ["--env-json", d.env.value] else [];
    EnvironmentRenders(d.env);
    RendersConcat(q + (i + t), b + rest, e, f);
    RendersConcat(p, a, q + (i + t) + e, b + rest + f);
    assert p + (q + (i + t) + e) == p + q + i + t + e;
  }

  lemma EnvironmentRenders(env: Option<string>)
    ensures RendersAll(if env.Some? then Flag("env-json", env.value) else [],
                       if env.Some? then ["--env-json", env.value] else [])
  {
    if env.Some? {
      FlagRenders("env-json", "--env-json", env.value);
    }
  }

  lemma {:induction false} AgentRenders(d: Definition)
    requires d.Agent? && Buildable(d)
    ensures RendersAll(DefinitionArgs(d).value, DefinitionArgv(d))
  {
    hide RendersAll, Flag, OptionalFlag, OptionalArgv, CommonArgs, TriggerArgv, TargetArgs, TargetArgv;
    var common := ["--project", d.projectId, "--name", d.name] + TriggerArgv(d.trigger);
    var model := Flag("prompt", d.prompt) + Flag("provider", d.providerId) + Flag("model", d.model);
    var modelArgv := ["--prompt", d.prompt, "--provider", d.providerId, "--model", d.model];
    var tuning := OptionalFlag("reasoning", d.reasoningLevel) + OptionalFlag("service-tier", d.serviceTier);
    var tuningArgv := OptionalArgv("--reasoning", d.reasoningLevel) + OptionalArgv("--service-tier", d.serviceTier);
    var ending := Flag("permission-mode", d.permissionMode) + TargetArgs(d.target);
    var endingArgv := ["--permission-mode", d.permissionMode] + TargetArgv(d.target);
    CommonRenders(d);
    ModelRenders(d.prompt, d.providerId, d.model);
    TuningRenders(d.reasoningLevel, d.serviceTier);
    EndingRenders(d.permissionMode, d.target);
    RendersConcat(model, modelArgv, tuning, tuningArgv);
    RendersConcat(model + tuning, modelArgv + tuningArgv, ending, endingArgv);
    RendersConcat(CommonArgs(d), common, model + tuning + ending, modelArgv + tuningArgv + endingArgv);
    assert CommonArgs(d) + (model + tuning + ending) == DefinitionArgs(d).value;
    assert common + (modelArgv + tuningArgv + endingArgv) == DefinitionArgv(d);
  }

  lemma {:induction false} TuningRenders(reasoningLevel: Option<string>, serviceTier: Option<string>)
    ensures RendersAll(OptionalFlag("reasoning", reasoningLevel) + OptionalFlag("service-tier", serviceTier),
                       OptionalArgv("--reasoning", reasoningLevel) + OptionalArgv("--service-tier", serviceTier))
  {
    hide RendersAll, OptionalFlag, OptionalArgv;
    OptionalRenders("reasoning", "--reasoning", reasoningLevel);
    OptionalRenders("service-tier", "--service-tier", serviceTier);
    RendersConcat(OptionalFlag("reasoning", reasoningLevel), OptionalArgv("--reasoning", reasoningLevel),
                  OptionalFlag("service-tier", serviceTier), OptionalArgv("--service-tier", serviceTier));
  }

  lemma {:induction false} EndingRenders(permissionMode: string, target: AutomationTarget)
    ensures RendersAll(Flag("permission-mode", permissionMode) + TargetArgs(target),
                       ["--permission-mode", permissionMode] + TargetArgv(target))
  {
    hide RendersAll, Flag, TargetArgs, TargetArgv;
    FlagRenders("permission-mode", "--permission-mode", permissionMode);
    TargetRenders(target);
    RendersConcat(Flag("permission-mode", permissionMode), ["--permission-mode", permissionMode], TargetArgs(target),
                  TargetArgv(target));
  }

  lemma {:induction false} ModelRenders(prompt: string, providerId: string, model: string)
    ensures RendersAll(Flag("prompt", prompt) + Flag("provider", providerId) + Flag("model", model),
                       ["--prompt", prompt, "--provider", providerId, "--model", model])
  {
    hide RendersAll, Flag;
    FlagRenders("prompt", "--prompt", prompt);
    FlagRenders("provider", "--provider", providerId);
    FlagRenders("model", "--model", model);
    RendersConcat(Flag("prompt", prompt), ["--prompt", prompt], Flag("provider", providerId),
                  ["--provider", providerId]);
    assert ["--prompt", prompt] + ["--provider", providerId] == ["--prompt", prompt, "--provider", providerId];
    RendersConcat(Flag("prompt", prompt) + Flag("provider", providerId), ["--prompt", prompt, "--provider", providerId],
                  Flag("model", model), ["--model", model]);
    assert ["--prompt", prompt, "--provider", providerId] + ["--model", model]
        == ["--prompt", prompt, "--provider", providerId, "--model", model];
  }

  /** A subcommand with rendered arguments is read back as its argument list, exactly when that list has no NUL. */
  lemma SubcommandRoundTrip(subcommand: string, printed: seq<string>, args: seq<string>)
    requires OptionName(subcommand) && RendersAll(printed, args)
    ensures Words(Command(subcommand, printed)) == Some(CommandArgv(subcommand, args))
       <==> AllNulFree(CommandArgv(subcommand, args))
  {
    hide RendersAll, Words, Join, AllNulFree;
    HeadRenders(subcommand);
    BareRenders("--json");
    var head := ["bb", "automation", subcommand];
    RendersConcat(head, head, printed, args);
    RendersConcat(head + printed, head + args, ["--json"], ["--json"]);
    CommandRoundTrip(head + printed + ["--json"], head + args + ["--json"]);
  }

  lemma HeadRenders(subcommand: string)
    requires OptionName(subcommand)
    ensures RendersAll(["bb", "automation", subcommand], ["bb", "automation", subcommand])
  {
    hide RendersAll;
    BareRenders("bb");
    BareRenders("automation");
    BareRenders(subcommand);
    RendersConcat(["bb"], ["bb"], ["automation"], ["automation"]);
    assert ["bb"] + ["automation"] == ["bb", "automation"];
    RendersConcat(["bb", "automation"], ["bb", "automation"], [subcommand], [subcommand]);
    assert ["bb", "automation"] + [subcommand] == ["bb", "automation", subcommand];
  }

  lemma {:induction false} DefinitionRenders(d: Definition)
    ensures DefinitionArgs(d).Ok? <==> Buildable(d)
    ensures Buildable(d) ==> RendersAll(DefinitionArgs(d).value, DefinitionArgv(d))
    ensures !Buildable(d) ==> DefinitionArgs(d).error == (if 1 <= d.timeoutMs <= 14_400_000
                                                          then ResultContractOutOfRange else TimeoutOutOfRange)
  {
    hide RendersAll, Flag;
    if d.Script? {
      ScriptRenders(d);
    } else if Buildable(d) {
      AgentRenders(d);
    }
  }

  /** The create command exists exactly for buildable definitions, and passes exactly the definition's options. */
  lemma CreateRoundTrip(d: Definition)
    ensures BuildCreate(d).Ok? <==> Buildable(d)
    ensures !Buildable(d) ==> BuildCreate(d).error == (if 1 <= d.timeoutMs <= 14_400_000
                                                       then ResultContractOutOfRange else TimeoutOutOfRange)
    ensures BuildCreate(d).Ok? ==> var argv := CommandArgv("create", DefinitionArgv(d));
                                   Words(BuildCreate(d).value) == Some(argv) <==> AllNulFree(argv)
  {
    hide RendersAll, DefinitionArgs, DefinitionArgv, Words, Command, AllNulFree;
    DefinitionRenders(d);
    if Buildable(d) {
      assert OptionName("create");
      SubcommandRoundTrip("create", DefinitionArgs(d).value, DefinitionArgv(d));
    }
  }

  lemma UpdateRoundTrip(automationId: string, d: Definition)
    ensures BuildUpdate(automationId, d).Ok? <==> Buildable(d)
    ensures !Buildable(d) ==> BuildUpdate(automationId, d) == BuildCreate(d)
    ensures BuildUpdate(automationId, d).Ok? ==>
              var argv := CommandArgv("update", [automationId] + DefinitionArgv(d));
              Words(BuildUpdate(automationId, d).value) == Some(argv) <==> AllNulFree(argv)
  {
    hide RendersAll, DefinitionArgs, DefinitionArgv, Words, Command, AllNulFree, SingleQuote;
    DefinitionRenders(d);
    if Buildable(d) {
      assert OptionName("update");
      QuotedRenders(automationId);
      RendersConcat([SingleQuote(automationId)], [automationId], DefinitionArgs(d).value, DefinitionArgv(d));
      SubcommandRoundTrip("update", [SingleQuote(automationId)] + DefinitionArgs(d).value,
                          [automationId] + DefinitionArgv(d));
    }
  }

  lemma TargetedRenders(projectId: string, automationId: string)
    ensures RendersAll([SingleQuote(automationId)] + Flag("project", projectId), [automationId, "--project", projectId])
  {
    hide RendersAll, Flag, SingleQuote;
    QuotedRenders(automationId);
    FlagRenders("project", "--project", projectId);
    RendersConcat([SingleQuote(automationId)], [automationId], Flag("project", projectId), ["--project", projectId]);
    assert [automationId] + ["--project", projectId] == [automationId, "--project", projectId];
  }

  lemma {:induction false} ShowAndListRoundTrip(projectId: string, automationId: string)
    ensures var argv := CommandArgv("show", [automationId, "--project", projectId]);
            Words(BuildShow(projectId, automationId)) == Some(argv) <==> AllNulFree(argv)
    ensures var argv := CommandArgv("list", ["--project", projectId]);
            Words(BuildList(projectId)) == Some(argv) <==> AllNulFree(argv)
  {
    hide RendersAll, Words, Command, AllNulFree, SingleQuote, Flag;
    assert OptionName("show") && OptionName("list");
    TargetedRenders(projectId, automationId);
    SubcommandRoundTrip("show", [SingleQuote(automationId)] + Flag("project", projectId),
                        [automationId, "--project", projectId]);
    FlagRenders("project", "--project", projectId);
    SubcommandRoundTrip("list", Flag("project", projectId), ["--project", projectId]);
  }

  lemma ActionRoundTrip(action: Action, projectId: string, automationId: string)
    ensures var argv := CommandArgv(ActionName(action),
                                    [automationId, "--project", projectId]
                                    + if action == Delete then ["--yes"] else []);
            Words(BuildAction(action, projectId, automationId)) == Some(argv) <==> AllNulFree(argv)
  {
    hide RendersAll, Words, Command, AllNulFree, SingleQuote, Flag;
    assert OptionName("pause") && OptionName("resume") && OptionName("delete");
    TargetedRenders(projectId, automationId);
    ConfirmationRenders(action);
    var yes := if action == Delete then ["--yes"] else [];
    RendersConcat([SingleQuote(automationId)] + Flag("project", projectId), [automationId, "--project", projectId],
                  yes, yes);
    SubcommandRoundTrip(ActionName(action), [SingleQuote(automationId)] + Flag("project", projectId) + yes,
                        [automationId, "--project", projectId] + yes);
  }

  lemma ConfirmationRenders(action: Action)
    ensures var yes := if action == Delete then ["--yes"] else []; RendersAll(yes, yes)
  {
    BareRenders("--yes");
  }

  lemma RunAndRunsRoundTrip(projectId: string, automationId: string, idempotencyKey: string, limit: int)
    ensures var argv := CommandArgv("run",
                                    [automationId, "--project", projectId] + ["--idempotency-key", idempotencyKey]);
            Words(BuildRun(projectId, automationId, idempotencyKey)) == Some(argv) <==> AllNulFree(argv)
    ensures if 1 <= limit <= 200 then BuildRuns(projectId, automationId, limit).Ok?
            else BuildRuns(projectId, automationId, limit) == Err(LimitOutOfRange)
    ensures 1 <= limit <= 200 ==>
              var argv := CommandArgv("runs", [automationId, "--project", projectId] + ["--limit", Decimal(limit)]);
              Words(BuildRuns(projectId, automationId, limit).value) == Some(argv) <==> AllNulFree(argv)
  {
    hide RendersAll, Words, Command, AllNulFree, SingleQuote, Flag, Decimal;
    assert OptionName("run") && OptionName("runs");
    var targeted := [SingleQuote(automationId)] + Flag("project", projectId);
    TargetedRenders(projectId, automationId);
    FlagRenders("idempotency-key", "--idempotency-key", idempotencyKey);
    RendersConcat(targeted, [automationId, "--project", projectId], Flag("idempotency-key", idempotencyKey),
                  ["--idempotency-key", idempotencyKey]);
    SubcommandRoundTrip("run", targeted + Flag("idempotency-key", idempotencyKey),
                        [automationId, "--project", projectId] + ["--idempotency-key", idempotencyKey]);
    FlagRenders("limit", "--limit", Decimal(limit));
    RendersConcat(targeted, [automationId, "--project", projectId], Flag("limit", Decimal(limit)),
                  ["--limit", Decimal(limit)]);
    SubcommandRoundTrip("runs", targeted + Flag("limit", Decimal(limit)),
                        [automationId, "--project", projectId] + ["--limit", Decimal(limit)]);
  }

  /**
   * A built command survives one more level of quoting: the envelope carries it whole, and the inner shell reads its
   * arguments.
   */
  lemma CreateThroughEnvelope(d: Definition)
    requires Buildable(d) && AllNulFree(CommandArgv("create", DefinitionArgv(d)))
    ensures BuildCreate(d).Ok? && EnvelopeAssignment(BuildCreate(d).value).Some?
    ensures Words(EnvelopeAssignment(BuildCreate(d).value).value)
            == Some([COMMAND_VARIABLE + "=" + BuildCreate(d).value])
    ensures Words(BuildCreate(d).value) == Some(CommandArgv("create", DefinitionArgv(d)))
  {
    hide DefinitionArgv, AllNulFree, BuildCreate, Run;
    CreateRoundTrip(d);
    if !NulFree(BuildCreate(d).value) {
      NulIsFatal(START, BuildCreate(d).value);
    }
    EnvelopeCarriesCommand(BuildCreate(d).value);
  }
}
