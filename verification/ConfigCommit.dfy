/**
  Committing an edit of config.yaml: fingerprint checks, a backup, an atomic write, a check of
  what was written, and the return to the prior bytes when that check fails.
 */
module ConfigCommit {
  import opened Wrappers
  import opened YamlTree
  import opened ConfigEdit
  import YamlNodes
  import ConfigPlan

  type Bytes = seq<char>

  /** The YAML text codec, between bytes and trees. */
  datatype Text = Text(encode: Tree -> Bytes, decode: Bytes -> Option<Tree>)

  ghost predicate RoundTrips(text: Text) {
    forall t :: text.encode(t) != [] && text.decode(text.encode(t)) == Some(t)
  }

  /** A document is one mapping without duplicate keys. */
  function Parse(text: Text, body: Bytes): (t: Option<Tree>)
    ensures t.Some? ==> t.value.Mapping? && DuplicateFree(t.value) && text.decode(body) == t
    ensures t.None? ==>
      var d := text.decode(body);
      d.None? || !d.value.Mapping? || !DuplicateFree(d.value)
  {
    var t := text.decode(body);
    if t.Some? && t.value.Mapping? && DuplicateFree(t.value) then t else None
  }

  /** The managed configuration a file's bytes stand for. */
  function Meaning(y: Yaml, text: Text, body: Bytes): Result<Config, Error> {
    var t := Parse(text, body);
    if t.None? then Failure(Unreadable) else Decode(y, t.value)
  }

  /** A failing atomic write stops before the rename, or after it while the directory is flushed. */
  datatype WriteFault = NoFault | BeforeRename | AfterRename

  /** Everything the operating system may do to one commit. */
  datatype Env = Env(
    backup: bool,           // the backup can be written
    write: WriteFault,
    readBack: bool,         // the file can be read after the write
    restore: WriteFault,    // what happens to the write that restores the prior bytes
    restoreCheck: bool)     // the restored file can be read

  class ConfigFile {
    const y: Yaml
    const text: Text
    const rules: Rules
    var file: Bytes
    var backups: seq<Bytes>

    constructor (y: Yaml, text: Text, rules: Rules, file: Bytes)
      ensures this.y == y && this.text == text && this.rules == rules && this.file == file && backups == []
    {
      this.y, this.text, this.rules, this.file := y, text, rules, file;
      backups := [];
    }

    method AtomicWrite(body: Bytes, fault: WriteFault) returns (ok: bool)
      modifies this`file
      ensures ok == fault.NoFault?
      ensures file == if fault.BeforeRename? then old(file) else body
    {
      if !fault.BeforeRename? {
        file := body;
      }
      ok := fault.NoFault?;
    }

    /** Writes the prior bytes back and looks whether they are there. */
    method RestorePrior(prior: Bytes, env: Env) returns (ok: bool)
      modifies this`file
      ensures ok == (env.restore.NoFault? && env.restoreCheck)
      ensures file == if env.restore.BeforeRename? then old(file) else prior
    {
      ok := AtomicWrite(prior, env.restore);
      if ok && (!env.restoreCheck || file != prior) {
        return false;
      }
    }

    /** The bytes of a plan for `ops` against the bytes the snapshot was taken from. */
    method PlanBytes(snapshot: Bytes, ops: seq<Op>) returns (r: Result<Bytes, Error>)
      requires RoundTrips(text)
      ensures file != snapshot ==> r == Failure(Stale)
      ensures file == snapshot ==>
        var t := Parse(text, snapshot);
        if t.None? then r == Failure(Unreadable)
        else if Plan(y, rules, t.value, ops).Failure? then r == Failure(Plan(y, rules, t.value, ops).error)
        else r == Success(text.encode(Plan(y, rules, t.value, ops).value))
    {
      if file != snapshot {
        return Failure(Stale);
      }
      var t := Parse(text, file);
      if t.None? {
        return Failure(Unreadable);
      }
      var root := YamlNodes.Build(t.value);
      var plan := ConfigPlan.PlanInPlace(y, rules, root, ops);
      if plan.Failure? {
        return Failure(plan.error);
      }
      return Success(text.encode(plan.value));
    }

    /** Whether the file ends up holding the candidate although the commit reports an error. */
    static predicate LeftBehind(env: Env) {
      || (env.write.AfterRename? && (!env.readBack || env.restore.BeforeRename?))
      || (env.write.NoFault? && !env.readBack && env.restore.BeforeRename?)
    }

    /** The candidate is a valid configuration, and the file still holds what it was planned for. */
    predicate Committable(snapshot: Bytes, rendered: Bytes)
      reads this`file
    {
      && rendered != [] && Meaning(y, text, rendered).Success?
      && Meets(rules, Meaning(y, text, rendered).value)
      && file == snapshot
    }

    /**
      What a commit reports when it fails after its backup; `same` says that the candidate
      is what the file held anyway. A write that failed after its rename and cannot be read back
      reports no more than that it failed.
     */
    static function CommitError(env: Env, same: bool): Error {
      var restored := env.restore.NoFault? && env.restoreCheck;
      if env.write.NoFault? then if restored then VerifyFailed else RollbackFailed
      else if env.readBack && (env.write.AfterRename? || same) && !restored then RollbackFailed
      else WriteFailed
    }

    /** Commits `rendered` over the bytes the plan was made for. */
    method Apply(snapshot: Bytes, rendered: Bytes, env: Env) returns (r: Result<(), Error>)
      modifies this
      ensures r.Success? <==>
        old(Committable(snapshot, rendered)) && env.backup && env.write.NoFault? && env.readBack
      ensures r.Success? ==> file == rendered && backups == old(backups) + [old(file)]
      ensures old(Committable(snapshot, rendered)) && env.backup ==>
        && backups == old(backups) + [old(file)]
        && file == (if r.Success? || LeftBehind(env) then rendered else old(file))
        && (r.Failure? ==> r.error == CommitError(env, old(file) == rendered))
      ensures rendered == [] ==> r == Failure(Unreadable)
      ensures
        var meaning := Meaning(y, text, rendered);
        rendered != [] && meaning.Failure? ==> r == Failure(meaning.error)
      ensures
        var meaning := Meaning(y, text, rendered);
        rendered != [] && meaning.Success? && Meets(rules, meaning.value) && old(file) != snapshot ==>
          r == Failure(Stale)
      ensures old(Committable(snapshot, rendered)) && !env.backup ==> r == Failure(BackupFailed)
      ensures !(old(Committable(snapshot, rendered)) && env.backup) ==>
        r.Failure? && file == old(file) && backups == old(backups)
      ensures
        var meaning := Meaning(y, text, rendered);
        rendered != [] && meaning.Success? && !Meets(rules, meaning.value) ==>
          r.Failure? && Breaks(rules, meaning.value, r.error)
      ensures r.Failure? ==> file == old(file) || (file == rendered && LeftBehind(env))
      ensures r.Failure? && file != old(file) && r.error != RollbackFailed ==> env.write.AfterRename? && !env.readBack
      ensures backups == old(backups) || backups == old(backups) + [old(file)]
      ensures file != old(file) ==> backups == old(backups) + [old(file)]
    {
      if rendered == [] {
        return Failure(Unreadable);
      }
      var candidate := Meaning(y, text, rendered);
      if candidate.Failure? {
        return Failure(candidate.error);
      }
      var refused := Policy(rules, candidate.value);
      if refused.Some? {
        return Failure(refused.value);
      }
      var current := file;
      if current != snapshot {
        return Failure(Stale);
      }
      if !env.backup {
        return Failure(BackupFailed);
      }
      backups := backups + [current];
      var written := AtomicWrite(rendered, env.write);
      if !written {
        if env.readBack && file == rendered {
          var restored := RestorePrior(current, env);
          if !restored {
            return Failure(RollbackFailed);
          }
        }
        return Failure(WriteFailed);
      }
      if !env.readBack || file != rendered {
        var restored := RestorePrior(current, env);
        if !restored {
          return Failure(RollbackFailed);
        }
        return Failure(VerifyFailed);
      }
      return Success(());
    }

    /** The edit changes some field, meets the policy, and the file is what the editor was opened on. */
    predicate Editable(before: Bytes, edited: Bytes)
      reads this`file
    {
      && file == before && Meaning(y, text, before).Success? && Meaning(y, text, edited).Success?
      && Difference(Meaning(y, text, before).value, Meaning(y, text, edited).value) != []
      && Meets(rules, Meaning(y, text, edited).value)
    }

    /**
      Why an edit is refused before anything is written. What a broken rule reports is not said
      here: replaying it may already meet something that is no mapping.
     */
    predicate RefusedEdit(edited: Bytes, confirmed: bool, error: Error)
      reads this`file
    {
      var current, wanted := Meaning(y, text, file), Meaning(y, text, edited);
      if current.Failure? then error == current.error
      else if wanted.Failure? then error == wanted.error
      else if current.value == wanted.value then error == NothingChanged
      else if !Meets(rules, wanted.value) then IsPlanError(error)
      else if !confirmed then error == Declined
      else error == Stale
    }

    /**
      Commits an edited copy: `before` is what the editor was opened on, `edited` what it left,
      `confirmed` what the user answered.
     */
    method CommitEdit(before: Bytes, edited: Bytes, confirmed: bool, env: Env) returns (r: Result<(), Error>)
      requires Faithful(y) && RoundTrips(text)
      modifies this
      ensures r.Success? ==>
        && old(file) == before && backups == old(backups) + [before]
        && Meaning(y, text, edited).Success? && Meaning(y, text, file) == Meaning(y, text, edited)
        && Meets(rules, Meaning(y, text, file).value)
        && KeepsOtherPaths(before, Meaning(y, text, edited).value, file)
      ensures r.Success? <==>
        old(Editable(before, edited)) && confirmed && env.backup && env.write.NoFault? && env.readBack
      ensures old(Editable(before, edited)) && confirmed && env.backup ==>
        && backups == old(backups) + [before]
        && (if r.Success? || LeftBehind(env)
            then Meaning(y, text, file) == Meaning(y, text, edited)
              && KeepsOtherPaths(before, Meaning(y, text, edited).value, file)
            else file == before)
      ensures !(old(Editable(before, edited)) && confirmed && env.backup) ==>
        r.Failure? && file == old(file) && backups == old(backups)
      ensures r.Failure? ==> file == old(file) || LeftBehind(env)
      ensures r.Failure? && file != old(file) ==> backups == old(backups) + [old(file)]
      ensures !(old(Editable(before, edited)) && confirmed) ==>
        r.Failure? && old(RefusedEdit(edited, confirmed, r.error))
      ensures old(Editable(before, edited)) && confirmed && r.Failure? ==>
        r.error == if env.backup then CommitError(env, false) else BackupFailed
    {
      hide *;
      var plan := PlanEdit(before, edited, confirmed);
      if plan.Failure? {
        return Failure(plan.error);
      }
      r := Apply(file, plan.value, env);
    }

    /** Everything up to the commit: the plan of the confirmed edit over the unchanged file. */
    method PlanEdit(before: Bytes, edited: Bytes, confirmed: bool) returns (plan: Result<Bytes, Error>)
      requires Faithful(y) && RoundTrips(text)
      ensures plan.Success? <==> Editable(before, edited) && confirmed
      ensures plan.Failure? ==> RefusedEdit(edited, confirmed, plan.error)
      ensures plan.Success? ==>
        && file == before && Committable(file, plan.value)
        && Meaning(y, text, edited).Success? && Meaning(y, text, plan.value) == Meaning(y, text, edited)
        && Meets(rules, Meaning(y, text, edited).value)
        && plan.value != before && KeepsOtherPaths(before, Meaning(y, text, edited).value, plan.value)
    {
      var original := file;
      var current := Meaning(y, text, original);
      if current.Failure? {
        return Failure(current.error);
      }
      var wanted := Meaning(y, text, edited);
      if wanted.Failure? {
        return Failure(wanted.error);
      }
      var ops := Difference(current.value, wanted.value);
      DifferenceEmpty(current.value, wanted.value);
      if ops == [] {
        return Failure(NothingChanged);
      }
      plan := PlanBytes(original, ops);
      PlannedEdit(original, wanted.value);
      hide Difference, Decode, Policy, Meets, Plan, Incomparable, DuplicateFree, KeepsOtherPaths, Parse, IsPlanError;
      if plan.Failure? {
        return;
      }
      if !confirmed {
        return Failure(Declined);
      }
      if file != before {
        return Failure(Stale);
      }
    }

    /** What the plan of a difference renders to. */
    lemma PlannedEdit(body: Bytes, wanted: Config)
      requires Faithful(y) && RoundTrips(text) && Meaning(y, text, body).Success?
      ensures Parse(text, body).Some?
      ensures var t := Parse(text, body).value;
        var plan := Plan(y, rules, t, Difference(Meaning(y, text, body).value, wanted));
        && (plan.Success? <==> Meets(rules, wanted))
        && (plan.Failure? ==> IsPlanError(plan.error))
        && (plan.Success? ==>
              && text.encode(plan.value) != [] && Meaning(y, text, text.encode(plan.value)) == Success(wanted)
              && KeepsOtherPaths(body, wanted, text.encode(plan.value)))
    {
      DiffThenPatch(y, rules, Parse(text, body).value, wanted);
      PlanErrors(y, rules, Parse(text, body).value, Difference(Meaning(y, text, body).value, wanted));
      hide IsPlanError, Difference, Decode, Policy, Meets, Plan, Incomparable, DuplicateFree;
    }

    /** Lookups away from the patched fields read in `after` what they read in `before`. */
    ghost predicate KeepsOtherPaths(before: Bytes, wanted: Config, after: Bytes)
      reads {}
    {
      && Parse(text, before).Some? && Parse(text, after).Some? && Meaning(y, text, before).Success?
      && var ops := Difference(Meaning(y, text, before).value, wanted);
      forall q :: (forall i :: 0 <= i < |ops| ==> Incomparable(PathOf(ops[i].field), q)) ==>
        Lookup(Parse(text, after).value, q) == Lookup(Parse(text, before).value, q)
    }
  }

  // ---------------------------------------------------------------- a candidate left behind

  const KEYS := Sequence([Scalar("!!str", "key-1", 0)])

  /** A small document that meets the policy. */
  const DOCUMENT := Mapping([Entry("port", Scalar("!!int", "8317", 0)),
                             Entry("auth-dir", Scalar("!!str", "/srv/auth", 0)),
                             Entry("api-keys", KEYS)])

  /** The scalars and keys of the document mean what they say, and the rules have nothing against them. */
  predicate Reads(y: Yaml, rules: Rules) {
    && y.atoi("8317") == Some(8317) && y.asTexts(KEYS) == Some(["key-1"])
    && !rules.blank("/srv/auth") && rules.absolute("/srv/auth") && !rules.template("key-1")
  }

  lemma DocumentFields()
    ensures FieldsOf(DOCUMENT) == Fields(None, Some(DOCUMENT.entries[0].value), Some(DOCUMENT.entries[1].value),
                                         None, Some(KEYS), None)
  {
    var entries := DOCUMENT.entries;
    FindUnique(entries, "host", 3);
    FindUnique(entries, "port", 0);
    FindUnique(entries, "auth-dir", 1);
    FindUnique(entries, "ws-auth", 3);
    FindUnique(entries, "api-keys", 2);
    FindUnique(entries, "remote-management", 3);
  }

  lemma DocumentIsDuplicateFree()
    ensures DuplicateFree(DOCUMENT)
  {
    assert forall i :: 0 <= i < |KEYS.items| ==> DuplicateFree(KEYS.items[i]);
    assert DuplicateFree(KEYS);
    assert forall i :: 0 <= i < |DOCUMENT.entries| ==> DuplicateFree(DOCUMENT.entries[i].value);
  }

  lemma DocumentDecodes(y: Yaml, rules: Rules)
    requires Reads(y, rules)
    ensures Decode(y, DOCUMENT) == Success(Config("", 8317, "/srv/auth", false, ["key-1"], true))
    ensures Meets(rules, Decode(y, DOCUMENT).value)
  {
    DocumentFields();
    hide Lookup, FieldsOf;
  }

  lemma MeaningIs(y: Yaml, text: Text, body: Bytes, t: Tree)
    requires text.decode(body) == Some(t) && t.Mapping? && DuplicateFree(t)
    ensures Meaning(y, text, body) == Decode(y, t)
  {
  }

  lemma DocumentIsAccepted(y: Yaml, text: Text, rules: Rules, body: Bytes)
    requires text.decode(body) == Some(DOCUMENT) && Reads(y, rules)
    ensures Meaning(y, text, body) == Success(Config("", 8317, "/srv/auth", false, ["key-1"], true))
    ensures Meets(rules, Meaning(y, text, body).value)
  {
    DocumentDecodes(y, rules);
    DocumentIsDuplicateFree();
    hide *;
    MeaningIs(y, text, body, DOCUMENT);
  }

  /**
    A commit whose write fails after the rename and cannot be read back: all that is reported is
    a failed write, and the candidate is in place.
   */
  method SilentlyLeftBehind(y: Yaml, text: Text, rules: Rules) returns (left: Bytes, r: Result<(), Error>)
    requires text.decode("new") == Some(DOCUMENT) && Reads(y, rules)
    ensures left == "new" && r == Failure(WriteFailed)
  {
    DocumentIsAccepted(y, text, rules, "new");
    var config := new ConfigFile(y, text, rules, "old");
    hide Meaning, Policy, Meets;
    r := config.Apply("old", "new", Env(true, AfterRename, false, NoFault, true));
    left := config.file;
  }
}
