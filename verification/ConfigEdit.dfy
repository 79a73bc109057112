/**
  Editing config.yaml: decoding the six managed fields, planning a patch, and computing the
  patch between two configurations.
 */
module ConfigEdit {
  import opened Wrappers
  import opened YamlTree

  datatype Config = Config(
    host: string, port: int, authDir: string, wsAuth: bool, apiKeys: seq<string>, managementLocal: bool)

  datatype Value = Text(s: string) | Number(n: int) | Flag(b: bool) | Texts(keys: seq<string>)

  datatype Error =
    | WrongType | NotAMapping | BadPort | NoAuthDir | RelativeAuthDir | RemoteManagement
    | NoKeys | TemplateKey | Unreadable | Stale | BackupFailed | WriteFailed | VerifyFailed
    | RollbackFailed | NothingChanged | Declined

  /** The fields of config.yaml that PMux decodes. */
  datatype Field = Host | Port | AuthDir | WsAuth | ApiKeys | AllowRemote

  function PathOf(field: Field): (path: Path)
    ensures path != []
  {
    match field
    case Host => ["host"]
    case Port => ["port"]
    case AuthDir => ["auth-dir"]
    case WsAuth => ["ws-auth"]
    case ApiKeys => ["api-keys"]
    case AllowRemote => ["remote-management", "allow-remote"]
  }

  // ---------------------------------------------------------------- values as YAML

  /** How values become nodes and how nodes are read as booleans, numbers and key lists. */
  datatype Yaml = Yaml(
    node: Value -> Tree,
    atoi: string -> Option<int>,
    asBool: Tree -> Option<bool>,
    asTexts: Tree -> Option<seq<string>>)

  /** Writing a value and reading it back gives the value, whatever quoting style is kept. */
  ghost predicate Faithful(y: Yaml) {
    && (forall s :: y.node(Text(s)).Scalar? && y.node(Text(s)).value == s)
    && (forall n :: y.node(Number(n)).Scalar? && y.atoi(y.node(Number(n)).value) == Some(n))
    && (forall b :: y.node(Flag(b)).Scalar? && y.asBool(y.node(Flag(b))) == Some(b))
    && (forall ks :: y.node(Texts(ks)).Sequence? && y.asTexts(y.node(Texts(ks))) == Some(ks))
    && (forall a, b :: SameContent(a, b) ==> y.asBool(a) == y.asBool(b))
    && (forall v :: DuplicateFree(y.node(v)))
  }

  function ScalarValue(t: Tree): string {
    if t.Scalar? then t.value else ""
  }

  // ---------------------------------------------------------------- decoding

  function DecodeText(found: Option<Tree>): Result<string, Error> {
    if found.None? then Success("")
    else if !found.value.Scalar? then Failure(WrongType)
    else Success(found.value.value)
  }

  function DecodePort(y: Yaml, found: Option<Tree>): Result<int, Error> {
    if found.None? then Success(0)
    else
      var port := y.atoi(ScalarValue(found.value));
      if port.None? || port.value < 1 || port.value > 65535 then Failure(BadPort) else Success(port.value)
  }

  function DecodeFlag(y: Yaml, found: Option<Tree>): Result<bool, Error> {
    if found.None? then Success(false)
    else if y.asBool(found.value).None? then Failure(WrongType)
    else Success(y.asBool(found.value).value)
  }

  function DecodeTexts(y: Yaml, found: Option<Tree>): Result<seq<string>, Error> {
    if found.None? then Success([])
    else if !found.value.Sequence? || y.asTexts(found.value).None? then Failure(WrongType)
    else Success(y.asTexts(found.value).value)
  }

  /** The nodes of the managed fields. */
  datatype Fields = Fields(
    host: Option<Tree>, port: Option<Tree>, authDir: Option<Tree>, wsAuth: Option<Tree>,
    keys: Option<Tree>, allow: Option<Tree>)

  function FieldsOf(t: Tree): Fields {
    Fields(Lookup(t, PathOf(Host)), Lookup(t, PathOf(Port)), Lookup(t, PathOf(AuthDir)),
           Lookup(t, PathOf(WsAuth)), Lookup(t, PathOf(ApiKeys)), Lookup(t, PathOf(AllowRemote)))
  }

  function DecodeFields(y: Yaml, f: Fields): Result<Config, Error> {
    var host := DecodeText(f.host);
    var port := DecodePort(y, f.port);
    var authDir := DecodeText(f.authDir);
    var wsAuth := DecodeFlag(y, f.wsAuth);
    var keys := DecodeTexts(y, f.keys);
    var allow := DecodeFlag(y, f.allow);
    if host.Failure? then Failure(host.error)
    else if port.Failure? then Failure(port.error)
    else if authDir.Failure? then Failure(authDir.error)
    else if wsAuth.Failure? then Failure(wsAuth.error)
    else if keys.Failure? then Failure(keys.error)
    else if allow.Failure? then Failure(allow.error)
    else Success(Config(host.value, port.value, authDir.value, wsAuth.value, keys.value, !allow.value))
  }

  /** The managed fields of a document, the first bad one reported. */
  function Decode(y: Yaml, t: Tree): Result<Config, Error> {
    DecodeFields(y, FieldsOf(t))
  }

  // ---------------------------------------------------------------- policy and patches

  /** Platform and key rules the policy consults. */
  datatype Rules = Rules(blank: string -> bool, absolute: string -> bool, template: string -> bool)

  predicate UsableAuthDir(rules: Rules, dir: string) {
    !rules.blank(dir) && (rules.absolute(dir) || "~/" <= dir)
  }

  /** What a configuration must be to be written: reachable, private, protected. */
  predicate Meets(rules: Rules, cfg: Config) {
    && 1 <= cfg.port <= 65535
    && !rules.blank(cfg.authDir) && (rules.absolute(cfg.authDir) || "~/" <= cfg.authDir)
    && cfg.managementLocal
    && cfg.apiKeys != [] && forall i :: 0 <= i < |cfg.apiKeys| ==> !rules.template(cfg.apiKeys[i])
  }

  /** The error names the first of these demands that is not met. */
  predicate Breaks(rules: Rules, cfg: Config, error: Error) {
    if cfg.port < 1 || 65535 < cfg.port then error == BadPort
    else if rules.blank(cfg.authDir) then error == NoAuthDir
    else if !rules.absolute(cfg.authDir) && !("~/" <= cfg.authDir) then error == RelativeAuthDir
    else if !cfg.managementLocal then error == RemoteManagement
    else if |cfg.apiKeys| == 0 then error == NoKeys
    else error == TemplateKey && exists i :: 0 <= i < |cfg.apiKeys| && rules.template(cfg.apiKeys[i])
  }

  function Policy(rules: Rules, cfg: Config): (refused: Option<Error>)
    ensures refused.None? <==> Meets(rules, cfg)
    ensures refused.Some? ==> Breaks(rules, cfg, refused.value)
  {
    if cfg.port < 1 || cfg.port > 65535 then Some(BadPort)
    else if rules.blank(cfg.authDir) then Some(NoAuthDir)
    else if !UsableAuthDir(rules, cfg.authDir) then Some(RelativeAuthDir)
    else if !cfg.managementLocal then Some(RemoteManagement)
    else if cfg.apiKeys == [] then Some(NoKeys)
    else if exists i :: 0 <= i < |cfg.apiKeys| && rules.template(cfg.apiKeys[i]) then Some(TemplateKey)
    else None
  }

  datatype Op = Put(field: Field, value: Value) | Unset(field: Field)

  /** Each field takes values of one type; a port must be a port. */
  function Validate(op: Op): Option<Error> {
    if op.Unset? then None
    else
      match op.field
      case Host => if op.value.Text? then None else Some(WrongType)
      case AuthDir => if op.value.Text? then None else Some(WrongType)
      case Port => if op.value.Number? && 1 <= op.value.n <= 65535 then None else Some(BadPort)
      case ApiKeys => if op.value.Texts? then None else Some(WrongType)
      case WsAuth => if op.value.Flag? then None else Some(WrongType)
      case AllowRemote => if op.value.Flag? then None else Some(WrongType)
  }

  function ApplyOp(y: Yaml, t: Tree, op: Op): (r: Result<Tree, Error>)
    requires t.Mapping?
    ensures r.Success? ==> r.value.Mapping?
  {
    var invalid := Validate(op);
    if invalid.Some? then Failure(invalid.value)
    else if op.Unset? then Success(Remove(t, PathOf(op.field)).tree)
    else
      var edit := Set(t, PathOf(op.field), Some(y.node(op.value)));
      if edit.ok then Success(edit.tree) else Failure(NotAMapping)
  }

  function ApplyOps(y: Yaml, t: Tree, ops: seq<Op>): (r: Result<Tree, Error>)
    requires t.Mapping?
    ensures r.Success? ==> r.value.Mapping?
    decreases |ops|
  {
    if ops == [] then Success(t)
    else
      var first := ApplyOp(y, t, ops[0]);
      if first.Failure? then first else ApplyOps(y, first.value, ops[1..])
  }

  /** The patched document, if every operation applies and the outcome decodes and meets the policy. */
  function Plan(y: Yaml, rules: Rules, t: Tree, ops: seq<Op>): Result<Tree, Error>
    requires t.Mapping?
  {
    var patched := ApplyOps(y, t, ops);
    if patched.Failure? then patched
    else
      var cfg := Decode(y, patched.value);
      if cfg.Failure? then Failure(cfg.error)
      else
        var refused := Policy(rules, cfg.value);
        if refused.Some? then Failure(refused.value) else patched
  }

  function When(changed: bool, field: Field, value: Value): seq<Op> {
    if changed then [Put(field, value)] else []
  }

  function AddressDifference(before: Config, after: Config): seq<Op> {
    When(before.host != after.host, Host, Text(after.host))
    + When(before.port != after.port, Port, Number(after.port))
    + When(before.authDir != after.authDir, AuthDir, Text(after.authDir))
  }

  function AccessDifference(before: Config, after: Config): seq<Op> {
    When(before.wsAuth != after.wsAuth, WsAuth, Flag(after.wsAuth))
    + When(before.managementLocal != after.managementLocal, AllowRemote, Flag(!after.managementLocal))
    + When(before.apiKeys != after.apiKeys, ApiKeys, Texts(after.apiKeys))
  }

  /** The operations that turn `before` into `after`. */
  function Difference(before: Config, after: Config): seq<Op> {
    AddressDifference(before, after) + AccessDifference(before, after)
  }

  // ---------------------------------------------------------------- one operation

  lemma FieldPathsAreIncomparable(f: Field, g: Field)
    requires f != g
    ensures Incomparable(PathOf(f), PathOf(g))
  {
    assert PathOf(f)[0] != PathOf(g)[0];
  }

  /** One put: its own path reads the new value, every incomparable path reads what it did. */
  lemma PutEffect(y: Yaml, t: Tree, op: Op)
    requires t.Mapping? && op.Put? && ApplyOp(y, t, op).Success?
    ensures var t' := ApplyOp(y, t, op).value;
      && (Lookup(t', PathOf(op.field)).Some? && SameContent(Lookup(t', PathOf(op.field)).value, y.node(op.value)))
      && forall q :: Incomparable(PathOf(op.field), q) ==> Lookup(t', q) == Lookup(t, q)
  {
    SetThenLookup(t, PathOf(op.field), y.node(op.value));
    forall q | Incomparable(PathOf(op.field), q)
      ensures Lookup(ApplyOp(y, t, op).value, q) == Lookup(t, q)
    {
      SetFrame(t, PathOf(op.field), Some(y.node(op.value)), q);
    }
  }

  /** The configuration a put leads to. */
  function Updated(cfg: Config, op: Op): Config
    requires op.Put? && Validate(op).None?
  {
    match op.field
    case Host => cfg.(host := op.value.s)
    case Port => cfg.(port := op.value.n)
    case AuthDir => cfg.(authDir := op.value.s)
    case WsAuth => cfg.(wsAuth := op.value.b)
    case ApiKeys => cfg.(apiKeys := op.value.keys)
    case AllowRemote => cfg.(managementLocal := !op.value.b)
  }

  function WithField(f: Fields, field: Field, node: Tree): Fields {
    match field
    case Host => f.(host := Some(node))
    case Port => f.(port := Some(node))
    case AuthDir => f.(authDir := Some(node))
    case WsAuth => f.(wsAuth := Some(node))
    case ApiKeys => f.(keys := Some(node))
    case AllowRemote => f.(allow := Some(node))
  }

  lemma PutChangesOneField(y: Yaml, t: Tree, op: Op) returns (node: Tree)
    requires t.Mapping? && op.Put? && ApplyOp(y, t, op).Success?
    ensures SameContent(node, y.node(op.value))
    ensures FieldsOf(ApplyOp(y, t, op).value) == WithField(FieldsOf(t), op.field, node)
  {
    PutEffect(y, t, op);
    var t' := ApplyOp(y, t, op).value;
    node := Lookup(t', PathOf(op.field)).value;
    forall g | g != op.field ensures Lookup(t', PathOf(g)) == Lookup(t, PathOf(g)) {
      FieldPathsAreIncomparable(op.field, g);
    }
  }

  /** What each decoder makes of a node holding a value of its own type. */
  lemma NodeDecodes(y: Yaml, value: Value, node: Tree)
    requires Faithful(y) && SameContent(node, y.node(value))
    ensures value.Text? ==> DecodeText(Some(node)) == Success(value.s)
    ensures value.Number? && 1 <= value.n <= 65535 ==> DecodePort(y, Some(node)) == Success(value.n)
    ensures value.Flag? ==> DecodeFlag(y, Some(node)) == Success(value.b)
    ensures value.Texts? ==> DecodeTexts(y, Some(node)) == Success(value.keys)
  {
  }

  lemma FieldDecodes(y: Yaml, f: Fields, op: Op, node: Tree)
    requires Faithful(y) && op.Put? && Validate(op).None? && DecodeFields(y, f).Success?
    requires SameContent(node, y.node(op.value))
    ensures DecodeFields(y, WithField(f, op.field, node)) == Success(Updated(DecodeFields(y, f).value, op))
  {
    NodeDecodes(y, op.value, node);
    match op.field
    case Host =>
    case Port =>
    case AuthDir =>
    case WsAuth =>
    case ApiKeys =>
    case AllowRemote =>
  }

  /** Decoding follows a put field by field. */
  lemma PutDecodes(y: Yaml, t: Tree, op: Op)
    requires Faithful(y) && t.Mapping? && op.Put? && ApplyOp(y, t, op).Success? && Decode(y, t).Success?
    ensures Validate(op).None?
    ensures Decode(y, ApplyOp(y, t, op).value) == Success(Updated(Decode(y, t).value, op))
  {
    var node := PutChangesOneField(y, t, op);
    FieldDecodes(y, FieldsOf(t), op, node);
  }

  // ---------------------------------------------------------------- the round trip

  function UpdatedAll(cfg: Config, ops: seq<Op>): Config
    requires forall i :: 0 <= i < |ops| ==> ops[i].Put? && Validate(ops[i]).None?
    decreases |ops|
  {
    if ops == [] then cfg else UpdatedAll(Updated(cfg, ops[0]), ops[1..])
  }

  lemma {:induction false} PutsDecode(y: Yaml, t: Tree, ops: seq<Op>)
    requires Faithful(y) && t.Mapping? && Decode(y, t).Success? && ApplyOps(y, t, ops).Success?
    requires forall i :: 0 <= i < |ops| ==> ops[i].Put?
    ensures forall i :: 0 <= i < |ops| ==> Validate(ops[i]).None?
    ensures Decode(y, ApplyOps(y, t, ops).value) == Success(UpdatedAll(Decode(y, t).value, ops))
    decreases |ops|
  {
    hide Decode, ApplyOp, Updated, Validate;
    if ops == [] {
    } else {
      PutDecodes(y, t, ops[0]);
      PutsDecode(y, ApplyOp(y, t, ops[0]).value, ops[1..]);
      assert forall i :: 1 <= i < |ops| ==> ops[i] == ops[1..][i - 1];
    }
  }

  ghost predicate ValidPuts(ops: seq<Op>) {
    forall i :: 0 <= i < |ops| ==> ops[i].Put? && Validate(ops[i]).None?
  }

  lemma {:induction false} UpdatedAllConcat(cfg: Config, a: seq<Op>, b: seq<Op>)
    requires ValidPuts(a) && ValidPuts(b)
    ensures ValidPuts(a + b)
    ensures UpdatedAll(cfg, a + b) == UpdatedAll(UpdatedAll(cfg, a), b)
    decreases |a|
  {
    if a == [] {
      assert a + b == b;
    } else {
      UpdatedAllConcat(Updated(cfg, a[0]), a[1..], b);
      assert (a + b)[1..] == a[1..] + b;
    }
  }

  /** The operations so far lead from `start` to `reached`. */
  ghost predicate Leads(start: Config, ops: seq<Op>, reached: Config) {
    ValidPuts(ops) && UpdatedAll(start, ops) == reached
  }

  /** One more operation at the end of a difference. */
  lemma WhenLeads(start: Config, ops: seq<Op>, c: Config, changed: bool, field: Field, value: Value, c': Config)
    requires Leads(start, ops, c)
    requires changed ==> Validate(Put(field, value)).None? && c' == Updated(c, Put(field, value))
    requires !changed ==> c' == c
    ensures Leads(start, ops + When(changed, field, value), c')
  {
    var more := When(changed, field, value);
    if changed {
      assert more[1..] == [];
      assert UpdatedAll(c, more) == Updated(c, Put(field, value));
      UpdatedAllConcat(start, ops, more);
    } else {
      assert ops + more == ops;
    }
  }

  lemma AddressLeads(before: Config, after: Config)
    requires 1 <= after.port <= 65535 || after.port == before.port
    ensures Leads(before, AddressDifference(before, after),
      before.(host := after.host, port := after.port, authDir := after.authDir))
  {
    assert Leads(before, [], before);
    hide Leads, When;
    var c1 := before.(host := after.host);
    var c2 := c1.(port := after.port);
    var c3 := c2.(authDir := after.authDir);
    var ops := When(before.host != after.host, Host, Text(after.host));
    WhenLeads(before, [], before, before.host != after.host, Host, Text(after.host), c1);
    assert [] + ops == ops;
    WhenLeads(before, ops, c1, before.port != after.port, Port, Number(after.port), c2);
    ops := ops + When(before.port != after.port, Port, Number(after.port));
    WhenLeads(before, ops, c2, before.authDir != after.authDir, AuthDir, Text(after.authDir), c3);
  }

  lemma AccessLeads(start: Config, before: Config, after: Config)
    requires start ==
      after.(wsAuth := before.wsAuth, managementLocal := before.managementLocal, apiKeys := before.apiKeys)
    ensures Leads(start, AccessDifference(before, after), after)
  {
    assert Leads(start, [], start);
    hide Leads, When;
    var c1 := start.(wsAuth := after.wsAuth);
    var c2 := c1.(managementLocal := after.managementLocal);
    var moved := before.managementLocal != after.managementLocal;
    var ops := When(before.wsAuth != after.wsAuth, WsAuth, Flag(after.wsAuth));
    WhenLeads(start, [], start, before.wsAuth != after.wsAuth, WsAuth, Flag(after.wsAuth), c1);
    assert [] + ops == ops;
    WhenLeads(start, ops, c1, moved, AllowRemote, Flag(!after.managementLocal), c2);
    ops := ops + When(moved, AllowRemote, Flag(!after.managementLocal));
    WhenLeads(start, ops, c2, before.apiKeys != after.apiKeys, ApiKeys, Texts(after.apiKeys), after);
  }

  /** Replaying the difference on the first configuration gives the second. */
  lemma DifferenceLeads(before: Config, after: Config)
    requires 1 <= after.port <= 65535 || after.port == before.port
    ensures Leads(before, Difference(before, after), after)
  {
    var middle := before.(host := after.host, port := after.port, authDir := after.authDir);
    AddressLeads(before, after);
    AccessLeads(middle, before, after);
    hide AddressDifference, AccessDifference;
    UpdatedAllConcat(before, AddressDifference(before, after), AccessDifference(before, after));
  }

  /** A put at a top-level key always applies; a nested one applies when its parent is a mapping. */
  predicate Applicable(t: Tree, op: Op) {
    op.field == AllowRemote ==> Lookup(t, PathOf(AllowRemote)).Some?
  }

  lemma ApplicableApplies(y: Yaml, t: Tree, op: Op)
    requires t.Mapping? && op.Put? && Validate(op).None? && Applicable(t, op)
    ensures ApplyOp(y, t, op).Success?
  {
    SetFailsExactly(t, PathOf(op.field), Some(y.node(op.value)));
    if op.field == AllowRemote {
      var path := PathOf(AllowRemote);
      assert path[..1] == ["remote-management"];
      assert Lookup(t, path[..1]).Some?;
    }
  }

  lemma {:induction false} PutsApply(y: Yaml, t: Tree, ops: seq<Op>)
    requires t.Mapping? && ValidPuts(ops)
    requires forall i :: 0 <= i < |ops| ==> Applicable(t, ops[i])
    ensures ApplyOps(y, t, ops).Success?
    decreases |ops|
  {
    if ops == [] {
    } else {
      ApplicableApplies(y, t, ops[0]);
      PutEffect(y, t, ops[0]);
      var t' := ApplyOp(y, t, ops[0]).value;
      if ops[0].field != AllowRemote {
        FieldPathsAreIncomparable(ops[0].field, AllowRemote);
      }
      forall i | 0 <= i < |ops[1..]| ensures Applicable(t', ops[1..][i]) {
        assert Applicable(t, ops[i + 1]);
      }
      PutsApply(y, t', ops[1..]);
    }
  }

  lemma {:induction false} PutsFrame(y: Yaml, t: Tree, ops: seq<Op>, q: Path)
    requires t.Mapping? && ValidPuts(ops) && ApplyOps(y, t, ops).Success?
    requires forall i :: 0 <= i < |ops| ==> Incomparable(PathOf(ops[i].field), q)
    ensures Lookup(ApplyOps(y, t, ops).value, q) == Lookup(t, q)
    decreases |ops|
  {
    if ops == [] {
    } else {
      PutEffect(y, t, ops[0]);
      PutsFrame(y, ApplyOp(y, t, ops[0]).value, ops[1..], q);
    }
  }

  lemma {:induction false} PutsKeepDuplicateFree(y: Yaml, t: Tree, ops: seq<Op>)
    requires Faithful(y) && t.Mapping? && DuplicateFree(t) && ValidPuts(ops) && ApplyOps(y, t, ops).Success?
    ensures DuplicateFree(ApplyOps(y, t, ops).value)
    decreases |ops|
  {
    if ops == [] {
    } else {
      SetKeepsDuplicateFree(t, PathOf(ops[0].field), Some(y.node(ops[0].value)));
      PutsKeepDuplicateFree(y, ApplyOp(y, t, ops[0]).value, ops[1..]);
    }
  }

  /**
    Diff, then patch: the plan for the difference to `after` is accepted exactly when `after`
    meets the demands, and then the patched document decodes to `after`, has no duplicate keys,
    and is unchanged at every path incomparable with the patched ones.
   */
  lemma DiffThenPatch(y: Yaml, rules: Rules, t: Tree, after: Config)
    requires Faithful(y) && t.Mapping? && DuplicateFree(t) && Decode(y, t).Success?
    ensures var ops := Difference(Decode(y, t).value, after);
      var plan := Plan(y, rules, t, ops);
      && (plan.Success? <==> Meets(rules, after))
      && (plan.Success? ==> Decode(y, plan.value) == Success(after) && DuplicateFree(plan.value))
      && (plan.Success? ==> forall q :: (forall i :: 0 <= i < |ops| ==> Incomparable(PathOf(ops[i].field), q)) ==>
            Lookup(plan.value, q) == Lookup(t, q))
  {
    hide PathOf, Lookup, Set, Remove, UpdatedAll, Difference;
    var before := Decode(y, t).value;
    var ops := Difference(before, after);
    var patched := ApplyOps(y, t, ops);
    if Policy(rules, after).None? {
      AcceptableApplies(y, t, after);
    }
    if patched.Success? {
      DifferenceIsPuts(before, after);
      PutsDecode(y, t, ops);
      PortInRangeOrKept(before, after);
      DifferenceLeads(before, after);
      PutsKeepDuplicateFree(y, t, ops);
      forall q | forall i :: 0 <= i < |ops| ==> Incomparable(PathOf(ops[i].field), q)
        ensures Lookup(patched.value, q) == Lookup(t, q)
      {
        PutsFrame(y, t, ops, q);
      }
    }
  }

  /** Every operation of the difference to a configuration that keeps management local applies. */
  lemma AcceptableApplies(y: Yaml, t: Tree, after: Config)
    requires t.Mapping? && Decode(y, t).Success?
    requires 1 <= after.port <= 65535 && after.managementLocal
    ensures ApplyOps(y, t, Difference(Decode(y, t).value, after)).Success?
  {
    hide PathOf, Lookup, Set, Remove, UpdatedAll, Difference;
    var before := Decode(y, t).value;
    var ops := Difference(before, after);
    DifferenceLeads(before, after);
    if before.managementLocal {
      NoRemotePut(before, after);
    }
    PutsApply(y, t, ops);
  }

  lemma NoRemotePut(before: Config, after: Config)
    requires before.managementLocal == after.managementLocal
    ensures forall i :: 0 <= i < |Difference(before, after)| ==> Difference(before, after)[i].field != AllowRemote
  {
  }

  lemma DifferenceIsPuts(before: Config, after: Config)
    ensures var ops := Difference(before, after); forall i :: 0 <= i < |ops| ==> ops[i].Put?
  {
  }

  lemma PortInRangeOrKept(before: Config, after: Config)
    requires ValidPuts(Difference(before, after))
    ensures 1 <= after.port <= 65535 || after.port == before.port
  {
    if before.port != after.port {
      assert Put(Port, Number(after.port)) in Difference(before, after);
    }
  }

  // ---------------------------------------------------------------- the managed fields, spelled out

  /** Where each field is read from. */
  lemma FieldsAt(t: Tree)
    ensures FieldsOf(t) == Fields(Lookup(t, ["host"]), Lookup(t, ["port"]), Lookup(t, ["auth-dir"]),
                                  Lookup(t, ["ws-auth"]), Lookup(t, ["api-keys"]),
                                  Lookup(t, ["remote-management", "allow-remote"]))
  {
    hide Lookup;
  }

  /** The number a port's node is read as. */
  function PortNumber(y: Yaml, port: Option<Tree>): Option<int> {
    y.atoi(if port.Some? && port.value.Scalar? then port.value.value else "")
  }

  /** What makes a document unreadable: text that is no scalar, and ports, flags and keys that do not parse. */
  lemma DecodesWhen(y: Yaml, t: Tree)
    ensures var host, port, authDir := Lookup(t, ["host"]), Lookup(t, ["port"]), Lookup(t, ["auth-dir"]);
      var wsAuth, keys := Lookup(t, ["ws-auth"]), Lookup(t, ["api-keys"]);
      var allow := Lookup(t, ["remote-management", "allow-remote"]);
      Decode(y, t).Success? <==>
        && (host.Some? ==> host.value.Scalar?)
        && (port.Some? ==> PortNumber(y, port).Some? && 1 <= PortNumber(y, port).value <= 65535)
        && (authDir.Some? ==> authDir.value.Scalar?)
        && (wsAuth.Some? ==> y.asBool(wsAuth.value).Some?)
        && (keys.Some? ==> keys.value.Sequence? && y.asTexts(keys.value).Some?)
        && (allow.Some? ==> y.asBool(allow.value).Some?)
  {
    FieldsAt(t);
    hide Lookup, FieldsOf;
  }

  /** What each field is, and what it is when it is not there. */
  lemma DecodesTo(y: Yaml, t: Tree)
    requires Decode(y, t).Success?
    ensures var host, port, authDir := Lookup(t, ["host"]), Lookup(t, ["port"]), Lookup(t, ["auth-dir"]);
      var wsAuth, keys := Lookup(t, ["ws-auth"]), Lookup(t, ["api-keys"]);
      var allow := Lookup(t, ["remote-management", "allow-remote"]);
      var cfg := Decode(y, t).value;
      && (if host.Some? then host.value.Scalar? && cfg.host == host.value.value else cfg.host == "")
      && (if port.Some? then PortNumber(y, port) == Some(cfg.port) else cfg.port == 0)
      && (if authDir.Some? then authDir.value.Scalar? && cfg.authDir == authDir.value.value else cfg.authDir == "")
      && (if wsAuth.Some? then y.asBool(wsAuth.value) == Some(cfg.wsAuth) else !cfg.wsAuth)
      && (if keys.Some? then y.asTexts(keys.value) == Some(cfg.apiKeys) else cfg.apiKeys == [])
      && (if allow.Some? then y.asBool(allow.value) == Some(!cfg.managementLocal) else cfg.managementLocal)
  {
    FieldsAt(t);
    hide Lookup, FieldsOf;
  }

  /** Each field takes values of one type, and a port must be a port. */
  lemma ValidExactly(op: Op)
    ensures Validate(op).None? <==>
      || op.Unset?
      || (op.field.Host? && op.value.Text?)
      || (op.field.AuthDir? && op.value.Text?)
      || (op.field.Port? && op.value.Number? && 1 <= op.value.n <= 65535)
      || (op.field.WsAuth? && op.value.Flag?)
      || (op.field.AllowRemote? && op.value.Flag?)
      || (op.field.ApiKeys? && op.value.Texts?)
    ensures Validate(op).Some? ==> Validate(op).value == if op.field.Port? then BadPort else WrongType
  {
  }

  lemma AddressSays(before: Config, after: Config)
    ensures var ops := AddressDifference(before, after);
      && (before.host != after.host <==> Put(Host, Text(after.host)) in ops)
      && (before.port != after.port <==> Put(Port, Number(after.port)) in ops)
      && (before.authDir != after.authDir <==> Put(AuthDir, Text(after.authDir)) in ops)
      && (forall i, j :: 0 <= i < j < |ops| ==> ops[i].field != ops[j].field)
      && (forall op :: op in ops ==> op.Put? && op.field in {Host, Port, AuthDir} && Changes(before, after, op.field))
  {
  }

  lemma AccessSays(before: Config, after: Config)
    ensures var ops := AccessDifference(before, after);
      && (before.wsAuth != after.wsAuth <==> Put(WsAuth, Flag(after.wsAuth)) in ops)
      && (before.managementLocal != after.managementLocal
          <==> Put(AllowRemote, Flag(!after.managementLocal)) in ops)
      && (before.apiKeys != after.apiKeys <==> Put(ApiKeys, Texts(after.apiKeys)) in ops)
      && (forall i, j :: 0 <= i < j < |ops| ==> ops[i].field != ops[j].field)
      && (forall op :: op in ops ==>
            op.Put? && op.field in {WsAuth, AllowRemote, ApiKeys} && Changes(before, after, op.field))
  {
  }

  /** No difference means the same configuration. */
  lemma DifferenceEmpty(before: Config, after: Config)
    ensures Difference(before, after) == [] <==> before == after
  {
    DifferenceSays(before, after);
    hide Difference;
    var ops := Difference(before, after);
    if ops != [] {
      assert ops[0] in ops && Changes(before, after, ops[0].field);
    }
  }

  /** What a plan can fail with. */
  predicate IsPlanError(error: Error) {
    || error.WrongType? || error.NotAMapping? || error.BadPort? || error.NoAuthDir? || error.RelativeAuthDir?
    || error.RemoteManagement? || error.NoKeys? || error.TemplateKey?
  }

  lemma {:induction false} ApplyOpsErrors(y: Yaml, t: Tree, ops: seq<Op>)
    requires t.Mapping?
    ensures ApplyOps(y, t, ops).Failure? ==> IsPlanError(ApplyOps(y, t, ops).error)
    decreases |ops|
  {
    if ops == [] {
    } else {
      var first := ApplyOp(y, t, ops[0]);
      if first.Success? {
        hide ApplyOp;
        ApplyOpsErrors(y, first.value, ops[1..]);
      }
    }
  }

  lemma DecodeErrors(y: Yaml, f: Fields)
    ensures var cfg := DecodeFields(y, f);
      cfg.Failure? ==> cfg.error == WrongType || cfg.error == BadPort
  {
  }

  lemma PlanErrors(y: Yaml, rules: Rules, t: Tree, ops: seq<Op>)
    requires t.Mapping?
    ensures Plan(y, rules, t, ops).Failure? ==> IsPlanError(Plan(y, rules, t, ops).error)
  {
    ApplyOpsErrors(y, t, ops);
    var patched := ApplyOps(y, t, ops);
    if patched.Success? {
      DecodeErrors(y, FieldsOf(patched.value));
    }
    hide ApplyOps, FieldsOf, Meets, DecodeFields;
  }

  /** The difference puts the new value of every field that changed, once, and touches no other. */
  lemma DifferenceSays(before: Config, after: Config)
    ensures var ops := Difference(before, after);
      && (before.host != after.host <==> Put(Host, Text(after.host)) in ops)
      && (before.port != after.port <==> Put(Port, Number(after.port)) in ops)
      && (before.authDir != after.authDir <==> Put(AuthDir, Text(after.authDir)) in ops)
      && (before.wsAuth != after.wsAuth <==> Put(WsAuth, Flag(after.wsAuth)) in ops)
      && (before.managementLocal != after.managementLocal
          <==> Put(AllowRemote, Flag(!after.managementLocal)) in ops)
      && (before.apiKeys != after.apiKeys <==> Put(ApiKeys, Texts(after.apiKeys)) in ops)
      && (forall i, j :: 0 <= i < j < |ops| ==> ops[i].field != ops[j].field)
      && (forall op :: op in ops ==> op.Put? && Changes(before, after, op.field))
  {
    AddressSays(before, after);
    AccessSays(before, after);
    hide AddressDifference, AccessDifference, Changes;
    var a, b := AddressDifference(before, after), AccessDifference(before, after);
    var ops := a + b;
    assert forall op :: op in ops <==> op in a || op in b;
    forall i, j | 0 <= i < j < |ops| ensures ops[i].field != ops[j].field {
      if i < |a| {
        assert a[i] in a;
      }
      if j >= |a| {
        assert b[j - |a|] in b;
      }
    }
  }

  predicate Changes(before: Config, after: Config, field: Field) {
    match field
    case Host => before.host != after.host
    case Port => before.port != after.port
    case AuthDir => before.authDir != after.authDir
    case WsAuth => before.wsAuth != after.wsAuth
    case ApiKeys => before.apiKeys != after.apiKeys
    case AllowRemote => before.managementLocal != after.managementLocal
  }
}
