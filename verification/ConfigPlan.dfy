/** Planning a patch on the nodes of a parsed document, rewriting them in place. */
module ConfigPlan {
  import opened Wrappers
  import opened YamlTree
  import opened YamlNodes
  import opened ConfigEdit

  /** One operation; a path that is not there is no error to unset. */
  method ApplyInPlace(y: Yaml, root: Node, op: Op) returns (error: Option<Error>)
    requires root.Valid() && root.kind == MappingKind && root.Model.Mapping?
    modifies root.Repr
    ensures root.Valid() && root.kind == MappingKind && root.Model.Mapping? && fresh(root.Repr - old(root.Repr))
    ensures ApplyOp(y, old(root.Model), op) == if error.Some? then Failure(error.value) else Success(root.Model)
  {
    error := Validate(op);
    if error.Some? {
      return;
    }
    hide *;
    if op.Unset? {
      var _ := root.RemovePath(PathOf(op.field));
    } else {
      var node := Build(y.node(op.value));
      var ok := root.SetPath(PathOf(op.field), node);
      if !ok {
        return Some(NotAMapping);
      }
    }
  }

  /** Applies the operations in order, then decodes the outcome and holds it against the policy. */
  method PlanInPlace(y: Yaml, rules: Rules, root: Node, ops: seq<Op>) returns (r: Result<Tree, Error>)
    requires root.Valid() && root.kind == MappingKind && root.Model.Mapping?
    modifies root.Repr
    ensures r == Plan(y, rules, old(root.Model), ops)
    ensures r.Success? ==> root.Valid() && root.Model == r.value
    ensures r.Success? ==> Decode(y, r.value).Success? && Meets(rules, Decode(y, r.value).value)
    ensures var patched := ApplyOps(y, old(root.Model), ops);
      patched.Success? && Decode(y, patched.value).Success? ==>
        var cfg := Decode(y, patched.value).value;
        && (r.Success? <==> Meets(rules, cfg))
        && (r.Failure? ==> Breaks(rules, cfg, r.error))
  {
    assert ops[0..] == ops;
    for i := 0 to |ops|
      invariant root.Valid() && root.kind == MappingKind && root.Model.Mapping? && fresh(root.Repr - old(root.Repr))
      invariant ApplyOps(y, root.Model, ops[i..]) == ApplyOps(y, old(root.Model), ops)
    {
      assert ops[i..][0] == ops[i] && ops[i..][1..] == ops[i + 1..];
      var error := ApplyInPlace(y, root, ops[i]);
      if error.Some? {
        return Failure(error.value);
      }
    }
    var patched := root.Read();
    var cfg := Decode(y, patched);
    if cfg.Failure? {
      return Failure(cfg.error);
    }
    var refused := Policy(rules, cfg.value);
    return if refused.Some? then Failure(refused.value) else Success(patched);
  }
}
