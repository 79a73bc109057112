/**
  The state document on disk: saving over a backup of the old document, pruning backups,
  and recovering a corrupt document from the newest backup that validates.
 */
module StateStore {
  import opened Wrappers

  type Bytes = seq<char>

  const READ_LIMIT: nat := 0x100_0000
  const KEEP: nat := 10
  const SCHEMA_VERSION := 1

  /** What JSON decoding makes of some bytes. */
  datatype Parsed<+V> = Garbage | Document(version: int, value: V)

  /** The document codec, and the rules a decoded value must meet. */
  datatype Format<!V> = Format(encode: V -> Bytes, parse: Bytes -> Parsed<V>, sound: V -> bool)

  ghost predicate Lawful<V(!new)>(f: Format<V>) {
    forall v: V :: f.parse(f.encode(v)) == Document(SCHEMA_VERSION, v)
  }

  /** The check a backup must pass, on all its bytes. */
  predicate Validates<V>(f: Format<V>, body: Bytes) {
    f.parse(body).Document? && f.parse(body).version == SCHEMA_VERSION && f.sound(f.parse(body).value)
  }

  lemma ValidatesExactly<V>(f: Format<V>, body: Bytes)
    ensures Validates(f, body) <==>
      f.parse(body).Document? && f.parse(body).version == 1 && f.sound(f.parse(body).value)
  {
  }

  /** Loading looks at no more than the read limit. */
  function ReadDocument<V>(f: Format<V>, body: Bytes): Parsed<V> {
    f.parse(if |body| <= READ_LIMIT then body else body[..READ_LIMIT])
  }

  // ---------------------------------------------------------------- backup names

  /** A backup's name: a fixed-width time stamp, then a digest; names sort by both. */
  datatype Name = Name(stamp: int, digest: int)

  predicate Newer(a: Name, b: Name) {
    a.stamp > b.stamp || (a.stamp == b.stamp && a.digest > b.digest)
  }

  function NewerIn(names: set<Name>, n: Name): set<Name> {
    set m | m in names && Newer(m, n)
  }

  ghost predicate Descending(list: seq<Name>) {
    forall i, j :: 0 <= i < j < |list| ==> Newer(list[i], list[j])
  }

  ghost predicate Lists(list: seq<Name>, names: set<Name>) {
    Descending(list) && forall n :: n in list <==> n in names
  }

  method Newest(names: set<Name>) returns (n: Name)
    requires names != {}
    ensures n in names && forall m :: m in names && m != n ==> Newer(n, m)
  {
    n :| n in names;
    var todo := names - {n};
    while todo != {}
      invariant todo <= names && n in names && n !in todo
      invariant forall m :: m in names && m !in todo && m != n ==> Newer(n, m)
      decreases todo
    {
      var m :| m in todo;
      if Newer(m, n) {
        n := m;
      }
      todo := todo - {m};
    }
  }

  /** The names, newest first. */
  method SortDescending(names: set<Name>) returns (list: seq<Name>)
    ensures Lists(list, names)
  {
    list := [];
    var todo := names;
    while todo != {}
      invariant todo <= names && Descending(list)
      invariant forall n :: n in list <==> n in names && n !in todo
      invariant forall n, m :: n in list && m in todo ==> Newer(n, m)
      decreases todo
    {
      var n := Newest(todo);
      list := list + [n];
      todo := todo - {n};
    }
  }

  lemma {:induction false} DistinctCount(list: seq<Name>)
    requires Descending(list)
    ensures |Elements(list)| == |list|
    decreases |list|
  {
    if list == [] {
    } else {
      var init, last := list[..|list| - 1], list[|list| - 1];
      DistinctCount(init);
      assert list == init + [last];
      assert last !in init;
      assert Elements(list) == Elements(init) + {last};
    }
  }

  /** The name at `i` in the descending list has exactly `i` newer ones. */
  lemma Rank(list: seq<Name>, names: set<Name>, i: nat)
    requires Lists(list, names) && i < |list|
    ensures |NewerIn(names, list[i])| == i
  {
    DistinctCount(list[..i]);
    assert NewerIn(names, list[i]) == Elements(list[..i]);
  }

  /** The names pruning keeps: those with fewer than ten newer ones. */
  function Kept(names: set<Name>): set<Name> {
    set n | n in names && |NewerIn(names, n)| < KEEP
  }

  /** A name is kept when fewer than ten have a later stamp, or the same stamp and a greater digest. */
  lemma KeptExactly(names: set<Name>, n: Name)
    ensures n in Kept(names) <==>
      n in names && |set m | m in names && (m.stamp > n.stamp || (m.stamp == n.stamp && m.digest > n.digest))| < 10
  {
    assert NewerIn(names, n)
        == set m | m in names && (m.stamp > n.stamp || (m.stamp == n.stamp && m.digest > n.digest));
  }

  /** So ten names are kept, or all if there are fewer. */
  lemma KeptCount(list: seq<Name>, names: set<Name>)
    requires Lists(list, names)
    ensures TenLeft(names, Kept(names))
  {
    KeptIsPrefix(list, names);
    DistinctCount(list);
    assert names == Elements(list);
    var k := if |list| < KEEP then |list| else KEEP;
    DistinctCount(list[..k]);
    forall n ensures n in Kept(names) <==> n in Elements(list[..k]) {
      if n in names {
        var i :| 0 <= i < |list| && list[i] == n;
        assert i < k ==> list[..k][i] == n;
        if n in list[..k] {
          var j :| 0 <= j < k && list[j] == n;
        }
      }
    }
    assert Kept(names) == Elements(list[..k]);
  }

  predicate TenLeft(before: set<Name>, after: set<Name>) {
    |after| == if |before| < 10 then |before| else 10
  }

  lemma KeptIsPrefix(list: seq<Name>, names: set<Name>)
    requires Lists(list, names)
    ensures forall i :: 0 <= i < |list| ==> (list[i] in Kept(names) <==> i < KEEP)
  {
    forall i | 0 <= i < |list| ensures list[i] in Kept(names) <==> i < KEEP {
      Rank(list, names, i);
    }
  }

  /** What pruning removes: everything after the ten newest. */
  function Doomed(list: seq<Name>): seq<Name> {
    list[if |list| < KEEP then |list| else KEEP..]
  }

  /** How many backups there are too many. */
  function Excess(names: set<Name>): nat {
    if |names| < KEEP then 0 else |names| - KEEP
  }

  lemma DoomedAreNotKept(list: seq<Name>, names: set<Name>)
    requires Lists(list, names)
    ensures forall n :: n in names ==> (n in Doomed(list) <==> n !in Kept(names))
    ensures |Doomed(list)| == Excess(names)
  {
    KeptIsPrefix(list, names);
    DistinctCount(list);
    assert names == Elements(list);
    forall n | n in names ensures n in Doomed(list) <==> n !in Kept(names) {
      var i :| 0 <= i < |list| && list[i] == n;
      assert i >= KEEP ==> Doomed(list)[i - KEEP] == n;
    }
  }

  function Elements(list: seq<Name>): set<Name> {
    set n | n in list
  }

  /** The backups left when the names in `gone` are removed. */
  function Without(backups: map<Name, Bytes>, gone: seq<Name>): map<Name, Bytes> {
    backups - Elements(gone)
  }

  lemma WithoutNext(backups: map<Name, Bytes>, doomed: seq<Name>, k: nat)
    requires k < |doomed|
    ensures Without(backups, doomed[..0]) == backups
    ensures Without(backups, doomed[..k + 1]) == Without(backups, doomed[..k]) - {doomed[k]}
  {
    assert doomed[..k + 1] == doomed[..k] + [doomed[k]];
    assert Elements(doomed[..k + 1]) == Elements(doomed[..k]) + {doomed[k]};
  }

  /** Whatever part of the doomed names is gone, the kept backups are there, unchanged. */
  lemma WithoutDoomed(backups: map<Name, Bytes>, list: seq<Name>, k: nat)
    requires Lists(list, backups.Keys) && k <= |Doomed(list)|
    ensures var left := Without(backups, Doomed(list)[..k]);
      && (forall n :: n in left ==> n in backups && left[n] == backups[n])
      && Kept(backups.Keys) <= left.Keys
      && (k == |Doomed(list)| ==> left.Keys == Kept(backups.Keys))
  {
    DoomedAreNotKept(list, backups.Keys);
    hide Doomed;
    var doomed := Doomed(list);
    assert forall n :: n in doomed[..k] ==> n in doomed;
    assert k == |doomed| ==> doomed[..k] == doomed;
    assert forall n :: n in Kept(backups.Keys) ==> n in backups.Keys;
  }

  // ---------------------------------------------------------------- the store

  /** How far a save gets before an error or the death of the process stops it. */
  datatype Stop =
    | Never
    | BeforeBackup
    | TornBackup(count: nat, left: bool) // a partial backup; an error removes it, a crash leaves it
    | AfterBackup
    | AfterRename
    | DuringPrune(removed: nat)

  /** The write of a restored document: done, or stopped by an error before or after its rename. */
  datatype Replacement = Replaced | FailsBefore | FailsAfter

  datatype LoadError = Unreadable | WrongVersion | ArtifactFailed | RecoveryNeeded | ReplaceFailed

  datatype Loaded<+V> = Value(value: V) | Absent | LoadFailed(error: LoadError)

  // ---------------------------------------------------------------- runs of saves

  datatype Disk = Disk(primary: Option<Bytes>, backups: map<Name, Bytes>)

  /** One save: what is saved, when, and where it stops. */
  datatype Attempt<V> = Attempt(value: V, now: int, stop: Stop)

  /** The first `count` bytes, or all of them. */
  function Torn(body: Bytes, count: nat): (torn: Bytes)
    ensures torn <= body && |torn| <= count && (|torn| < count ==> torn == body)
  {
    body[..if count < |body| then count else |body|]
  }

  function NameOf(digest: Bytes -> int, body: Bytes, now: int): Name {
    Name(now, digest(body))
  }

  /** The attempt gets as far as writing a backup of the present document. */
  predicate StartsBackup<V>(f: Format<V>, digest: Bytes -> int, d: Disk, a: Attempt<V>) {
    && f.sound(a.value) && d.primary.Some? && !a.stop.BeforeBackup?
    && Validates(f, d.primary.value) && NameOf(digest, d.primary.value, a.now) !in d.backups
  }

  /** The exact bytes of the present document are in a new backup. */
  predicate BacksUp<V>(f: Format<V>, digest: Bytes -> int, d: Disk, a: Attempt<V>) {
    StartsBackup(f, digest, d, a) && !a.stop.TornBackup?
  }

  /** A new backup is there, whole or torn by a crash. */
  predicate Makes<V>(f: Format<V>, digest: Bytes -> int, d: Disk, a: Attempt<V>) {
    StartsBackup(f, digest, d, a) && (a.stop.TornBackup? ==> a.stop.left)
  }

  /** The backups before any are pruned. */
  function Made<V>(f: Format<V>, digest: Bytes -> int, d: Disk, a: Attempt<V>): map<Name, Bytes> {
    if !Makes(f, digest, d, a) then d.backups
    else
      var body := d.primary.value;
      d.backups[NameOf(digest, body, a.now) :=
        if a.stop.TornBackup? then Torn(body, a.stop.count) else body]
  }

  /** What a save may leave of the disk it found, wherever it stops. */
  ghost predicate SaveStep<V>(f: Format<V>, digest: Bytes -> int, d: Disk, a: Attempt<V>, d': Disk) {
    var made := Made(f, digest, d, a);
    && (forall n :: n in d'.backups ==> n in made && d'.backups[n] == made[n])
    && Kept(made.Keys) <= d'.backups.Keys
    && (d'.primary == d.primary || d'.primary == Some(f.encode(a.value)))
    && (d'.primary != d.primary && d.primary.Some? ==> BacksUp(f, digest, d, a))
  }

  /** Saves one after the other, each with a later stamp than the one before and than any backup at the start. */
  ghost predicate Saves<V>(f: Format<V>, digest: Bytes -> int, disks: seq<Disk>, attempts: seq<Attempt<V>>) {
    && |disks| == |attempts| + 1
    && (forall i :: 0 <= i < |attempts| ==> SaveStep(f, digest, disks[i], attempts[i], disks[i + 1]))
    && (forall i, j :: 0 <= i < j < |attempts| ==> attempts[i].now < attempts[j].now)
    && (forall i, n :: 0 <= i < |attempts| && n in disks[0].backups ==> n.stamp < attempts[i].now)
  }

  /** The number of backups, whole or torn, that the saves from `i` up to `j` made. */
  function Backups<V>(f: Format<V>, digest: Bytes -> int, disks: seq<Disk>, attempts: seq<Attempt<V>>,
                      i: nat, j: nat): nat
    requires i <= j <= |attempts| < |disks|
  {
    if i == j then 0
    else
      Backups(f, digest, disks, attempts, i, j - 1) + if Makes(f, digest, disks[j - 1], attempts[j - 1]) then 1 else 0
  }

  lemma {:induction false} StampsStayBelow<V>(f: Format<V>, digest: Bytes -> int, disks: seq<Disk>,
                                              attempts: seq<Attempt<V>>, i: nat, k: nat)
    requires Saves(f, digest, disks, attempts) && i <= k < |attempts|
    ensures forall n :: n in disks[i].backups ==> n.stamp < attempts[k].now
    decreases i
  {
    if i == 0 {
    } else {
      StampsStayBelow(f, digest, disks, attempts, i - 1, k);
      assert SaveStep(f, digest, disks[i - 1], attempts[i - 1], disks[i - 1 + 1]);
    }
  }

  /** One more save pushes a backup at most one place down, and only if it makes one of its own. */
  lemma SaveKeeps<V>(f: Format<V>, digest: Bytes -> int, d: Disk, a: Attempt<V>, d': Disk, name: Name, newer: nat)
    requires SaveStep(f, digest, d, a, d')
    requires name in d.backups && |NewerIn(d.backups.Keys, name)| <= newer
    requires newer + (if Makes(f, digest, d, a) then 1 else 0) < KEEP
    ensures name in d'.backups
    ensures d'.backups[name] == d.backups[name]
    ensures |NewerIn(d'.backups.Keys, name)| <= newer + if Makes(f, digest, d, a) then 1 else 0
  {
    var made := Made(f, digest, d, a);
    if Makes(f, digest, d, a) {
      var added := NameOf(digest, d.primary.value, a.now);
      assert made.Keys == d.backups.Keys + {added};
      assert NewerIn(made.Keys, name) <= NewerIn(d.backups.Keys, name) + {added};
      Fewer(NewerIn(made.Keys, name), NewerIn(d.backups.Keys, name) + {added});
    }
    assert name in Kept(made.Keys);
    assert d'.backups.Keys <= made.Keys;
    Fewer(NewerIn(d'.backups.Keys, name), NewerIn(made.Keys, name));
  }

  lemma {:induction false} Fewer(a: set<Name>, b: set<Name>)
    requires a <= b
    ensures |a| <= |b|
    decreases |a|
  {
    if a == {} {
    } else {
      var n :| n in a;
      Fewer(a - {n}, b - {n});
    }
  }

  /**
    Over any run of saves, each stopped anywhere: the exact bytes of a document that a save
    backed up stay in that backup until ten more backups, torn ones included, have been made.
   */
  lemma {:induction false} LastTenSurvive<V>(f: Format<V>, digest: Bytes -> int, disks: seq<Disk>,
                                             attempts: seq<Attempt<V>>, i: nat, j: nat)
    requires Saves(f, digest, disks, attempts) && i < j <= |attempts|
    requires BacksUp(f, digest, disks[i], attempts[i])
    requires Backups(f, digest, disks, attempts, i + 1, j) < KEEP
    ensures var name := NameOf(digest, disks[i].primary.value, attempts[i].now);
      && name in disks[j].backups && disks[j].backups[name] == disks[i].primary.value
      && |NewerIn(disks[j].backups.Keys, name)| <= Backups(f, digest, disks, attempts, i + 1, j)
    decreases j
  {
    var name := NameOf(digest, disks[i].primary.value, attempts[i].now);
    assert SaveStep(f, digest, disks[j - 1], attempts[j - 1], disks[j - 1 + 1]);
    if j == i + 1 {
      StampsStayBelow(f, digest, disks, attempts, i, i);
      var made := Made(f, digest, disks[i], attempts[i]);
      assert made.Keys == disks[i].backups.Keys + {name};
      assert NewerIn(made.Keys, name) == {};
      assert name in Kept(made.Keys);
      assert NewerIn(disks[j].backups.Keys, name) == {};
    } else {
      LastTenSurvive(f, digest, disks, attempts, i, j - 1);
      SaveKeeps(f, digest, disks[j - 1], attempts[j - 1], disks[j], name,
        Backups(f, digest, disks, attempts, i + 1, j - 1));
    }
  }

  /** And a document is never replaced by a save that has not backed it up. */
  lemma ReplacedWasBackedUp<V>(f: Format<V>, digest: Bytes -> int, disks: seq<Disk>, attempts: seq<Attempt<V>>,
                               i: nat, j: nat)
    requires Saves(f, digest, disks, attempts) && i < j <= |attempts|
    requires disks[i].primary.Some? && disks[i + 1].primary != disks[i].primary
    requires Backups(f, digest, disks, attempts, i + 1, j) < KEEP
    ensures exists n :: n in disks[j].backups && disks[j].backups[n] == disks[i].primary.value
  {
    assert SaveStep(f, digest, disks[i], attempts[i], disks[i + 1]);
    LastTenSurvive(f, digest, disks, attempts, i, j);
  }

  // ---------------------------------------------------------------- the store's files

  class Store<V(!new)> {
    const format: Format<V>
    const digest: Bytes -> int
    var primary: Option<Bytes>
    var backups: map<Name, Bytes>
    var artifacts: seq<Bytes>

    constructor (format: Format<V>, digest: Bytes -> int, primary: Option<Bytes>)
      ensures this.format == format && this.digest == digest && this.primary == primary
      ensures backups == map[] && artifacts == []
    {
      this.format, this.digest, this.primary := format, digest, primary;
      backups, artifacts := map[], [];
    }

    /** The name the next backup of `body` gets at time `now`. */
    function BackupName(body: Bytes, now: int): Name {
      NameOf(digest, body, now)
    }

    /** Copies the current document into the backups; refuses an invalid one and a taken name. */
    method BackupCurrent(now: int, stop: Stop) returns (ok: bool)
      modifies this`backups
      ensures primary.None? ==> ok && backups == old(backups)
      ensures primary.Some? ==>
        var name := BackupName(primary.value, now);
        if stop.BeforeBackup? || !Validates(format, primary.value) || name in old(backups)
        then !ok && backups == old(backups)
        else if stop.TornBackup? then
          && !ok
          && backups == if stop.left
                        then old(backups)[name := Torn(primary.value, stop.count)]
                        else old(backups)
        else ok && backups == old(backups)[name := primary.value]
    {
      if primary.None? {
        return true;
      }
      var body := primary.value;
      if stop.BeforeBackup? || !Validates(format, body) {
        return false;
      }
      var name := BackupName(body, now);
      if name in backups {
        return false;
      }
      if stop.TornBackup? {
        if stop.left {
          backups := backups[name := Torn(body, stop.count)];
        }
        return false;
      }
      backups := backups[name := body];
      return true;
    }

    /** Removes all but the ten newest backups, one after the other. */
    method Prune(stop: Stop) returns (ok: bool)
      modifies this`backups
      ensures ok == !(stop.DuringPrune? && stop.removed < Excess(old(backups).Keys))
      ensures forall n :: n in backups ==> n in old(backups) && backups[n] == old(backups)[n]
      ensures Kept(old(backups).Keys) <= backups.Keys
      ensures ok ==> backups.Keys == Kept(old(backups).Keys)
      ensures ok ==> TenLeft(old(backups).Keys, backups.Keys)
    {
      var list := SortDescending(backups.Keys);
      DoomedAreNotKept(list, backups.Keys);
      KeptCount(list, backups.Keys);
      var doomed := Doomed(list);
      ghost var before := backups;
      assert Without(before, doomed[..0]) == before;
      hide *;
      var removed := 0;
      while removed < |doomed|
        invariant 0 <= removed <= |doomed|
        invariant stop.DuringPrune? ==> removed <= stop.removed
        invariant backups == Without(before, doomed[..removed])
      {
        if stop.DuringPrune? && stop.removed == removed {
          WithoutDoomed(before, list, removed);
          return false;
        }
        WithoutNext(before, doomed, removed);
        backups := backups - {doomed[removed]};
        removed := removed + 1;
      }
      WithoutDoomed(before, list, removed);
      return true;
    }

    /**
      Saves a document. `stop` is where an error or a crash ends the save; `renamed` says
      whether the document had been replaced by then.
     */
    method Save(value: V, now: int, stop: Stop) returns (ok: bool, ghost renamed: bool)
      requires Lawful(format)
      modifies this
      ensures artifacts == old(artifacts)
      ensures primary == if renamed then Some(format.encode(value)) else old(primary)
      ensures var found, attempt := Disk(old(primary), old(backups)), Attempt(value, now, stop);
        && (renamed <==>
              && format.sound(value) && !stop.AfterBackup?
              && (found.primary.Some? ==> BacksUp(format, digest, found, attempt)))
        && (ok <==>
              && renamed && !stop.AfterRename?
              && !(stop.DuringPrune? && stop.removed < Excess(Made(format, digest, found, attempt).Keys)))
      ensures ok ==> renamed
      ensures !format.sound(value) ==> !ok && !renamed && backups == old(backups)
      ensures renamed ==> Validates(format, format.encode(value))
      ensures renamed && old(primary).Some? ==>
        var name := BackupName(old(primary).value, now);
        && Validates(format, old(primary).value) && name !in old(backups)
        && (|NewerIn(old(backups).Keys, name)| < KEEP ==> name in backups && backups[name] == old(primary).value)
        && (ok ==> (name in backups <==> |NewerIn(old(backups).Keys, name)| < KEEP))
      ensures renamed && old(primary).Some? && (forall n :: n in old(backups) ==> n.stamp < now) ==>
        var name := BackupName(old(primary).value, now);
        name in backups && backups[name] == old(primary).value
      ensures ok && old(primary).Some? ==>
        backups.Keys == Kept(old(backups).Keys + {BackupName(old(primary).value, now)})
      ensures forall n :: n in backups && n in old(backups) ==> backups[n] == old(backups)[n]
      ensures SaveStep(format, digest, Disk(old(primary), old(backups)), Attempt(value, now, stop),
                       Disk(primary, backups))
      ensures renamed <==>
        && format.sound(value) && !stop.AfterBackup?
        && (old(primary).Some? ==>
              && !stop.BeforeBackup? && !stop.TornBackup?
              && Name(now, digest(old(primary).value)) !in old(backups) && IsSoundDocument(old(primary).value))
      ensures renamed && old(primary).Some? && (forall n :: n in old(backups) ==> n.stamp < now) ==>
        var name := Name(now, digest(old(primary).value));
        name in backups && backups[name] == old(primary).value
    {
      ghost var found, attempt := Disk(primary, backups), Attempt(value, now, stop);
      if primary.Some? {
        ValidatesExactly(format, primary.value);
      }
      assert found.primary.Some? ==> (BacksUp(format, digest, found, attempt) <==>
        && format.sound(value) && !stop.BeforeBackup? && !stop.TornBackup?
        && Name(now, digest(found.primary.value)) !in backups && IsSoundDocument(found.primary.value));
      hide Validates, SaveStep, Made, Kept, NewerIn, Lawful, BacksUp, IsSoundDocument;
      ok, renamed := SaveInSteps(value, now, stop);
    }

    /** Validate, back up, replace, prune. */
    method SaveInSteps(value: V, now: int, stop: Stop) returns (ok: bool, ghost renamed: bool)
      requires Lawful(format)
      modifies this
      ensures artifacts == old(artifacts)
      ensures primary == if renamed then Some(format.encode(value)) else old(primary)
      ensures var found, attempt := Disk(old(primary), old(backups)), Attempt(value, now, stop);
        && (renamed <==>
              && format.sound(value) && !stop.AfterBackup?
              && (found.primary.Some? ==> BacksUp(format, digest, found, attempt)))
        && (ok <==>
              && renamed && !stop.AfterRename?
              && !(stop.DuringPrune? && stop.removed < Excess(Made(format, digest, found, attempt).Keys)))
      ensures ok ==> renamed
      ensures !format.sound(value) ==> !ok && !renamed && backups == old(backups)
      ensures renamed ==> Validates(format, format.encode(value))
      ensures renamed && old(primary).Some? ==>
        var name := BackupName(old(primary).value, now);
        && Validates(format, old(primary).value) && name !in old(backups)
        && (|NewerIn(old(backups).Keys, name)| < KEEP ==> name in backups && backups[name] == old(primary).value)
        && (ok ==> (name in backups <==> |NewerIn(old(backups).Keys, name)| < KEEP))
      ensures renamed && old(primary).Some? && (forall n :: n in old(backups) ==> n.stamp < now) ==>
        var name := BackupName(old(primary).value, now);
        name in backups && backups[name] == old(primary).value
      ensures ok && old(primary).Some? ==>
        backups.Keys == Kept(old(backups).Keys + {BackupName(old(primary).value, now)})
      ensures forall n :: n in backups && n in old(backups) ==> backups[n] == old(backups)[n]
      ensures SaveStep(format, digest, Disk(old(primary), old(backups)), Attempt(value, now, stop),
                       Disk(primary, backups))
    {
      ghost var found, attempt := Disk(primary, backups), Attempt(value, now, stop);
      hide TenLeft;
      renamed := false;
      if !format.sound(value) {
        return false, false;
      }
      ok := BackupCurrent(now, stop);
      assert backups == Made(format, digest, found, attempt);
      if !ok || stop.AfterBackup? {
        return false, false;
      }
      ghost var names := backups.Keys;
      if old(primary).Some? {
        ghost var name := BackupName(old(primary).value, now);
        assert NewerIn(names, name) == NewerIn(old(backups).Keys, name);
        assert name in Kept(names) <==> |NewerIn(old(backups).Keys, name)| < KEEP;
        assert names == old(backups).Keys + {name};
        if forall n :: n in old(backups) ==> n.stamp < now {
          assert NewerIn(old(backups).Keys, name) == {};
        }
      }
      primary := Some(format.encode(value));
      renamed := true;
      if stop.AfterRename? {
        return false, true;
      }
      ok := Prune(stop);
    }

    /** A document loads when it decodes, has the right version and is sound. */
    ghost predicate Loads(body: Bytes, value: V) {
      ReadDocument(format, body) == Document(SCHEMA_VERSION, value) && format.sound(value)
    }

    /** The newest readable backup that validates, if there is one. */
    method LatestValidBackup(unreadable: set<Name>) returns (found: Option<Name>)
      ensures found.None? ==> forall n :: n in backups && n !in unreadable ==> !Validates(format, backups[n])
      ensures found.Some? ==>
        && found.value in backups && found.value !in unreadable && Validates(format, backups[found.value])
        && forall n :: n in backups && Newer(n, found.value) ==> n in unreadable || !Validates(format, backups[n])
    {
      var list := SortDescending(backups.Keys);
      var i := 0;
      while i < |list|
        invariant 0 <= i <= |list|
        invariant forall k :: 0 <= k < i ==> list[k] in unreadable || !Validates(format, backups[list[k]])
      {
        if list[i] !in unreadable && Validates(format, backups[list[i]]) {
          forall n | n in backups && Newer(n, list[i]) ensures n in unreadable || !Validates(format, backups[n]) {
            var k :| 0 <= k < |list| && list[k] == n;
          }
          return Some(list[i]);
        }
        i := i + 1;
      }
      return None;
    }

    /** Recovers a corrupt document: keeps a copy, restores the newest valid backup, rereads it. */
    method Recover(unreadable: set<Name>, artifact: bool, replacement: Replacement) returns (r: Loaded<V>)
      requires primary.Some?
      modifies this
      ensures backups == old(backups)
      ensures artifacts == if artifact then old(artifacts) + [old(primary).value] else old(artifacts)
      ensures Recovered(old(primary), unreadable, artifact, replacement, r)
    {
      if !artifact {
        return LoadFailed(ArtifactFailed);
      }
      artifacts := artifacts + [primary.value];
      var found := LatestValidBackup(unreadable);
      if found.None? {
        return LoadFailed(RecoveryNeeded);
      }
      assert Candidate(found.value, unreadable) && Best(found.value, unreadable);
      if replacement.FailsBefore? {
        return LoadFailed(ReplaceFailed);
      }
      primary := Some(backups[found.value]);
      assert Candidate(found.value, unreadable) && Best(found.value, unreadable);
      if replacement.FailsAfter? {
        return LoadFailed(ReplaceFailed);
      }
      var reread := ReadDocument(format, primary.value);
      if reread.Garbage? || !format.sound(reread.value) {
        return LoadFailed(Unreadable);
      }
      return Value(reread.value);
    }

    /** A backup recovery may use. */
    ghost predicate Candidate(n: Name, unreadable: set<Name>)
      reads this`backups
    {
      n in backups && n !in unreadable && Validates(format, backups[n])
    }

    /** The newest of them. */
    ghost predicate Best(n: Name, unreadable: set<Name>)
      reads this`backups
    {
      Candidate(n, unreadable) && forall m :: Candidate(m, unreadable) && m != n ==> Newer(n, m)
    }

    /** What loading reads of a document is sound. */
    predicate ReadsBack(body: Bytes) {
      ReadDocument(format, body).Document? && format.sound(ReadDocument(format, body).value)
    }

    /** A document that validates and is no longer than what loading reads is read back. */
    lemma ShortReadsBack(body: Bytes)
      requires Validates(format, body) && |body| <= READ_LIMIT
      ensures ReadsBack(body) && Loads(body, ReadDocument(format, body).value)
    {
    }

    /**
      How a recovery ends. Without a copy of the corrupt bytes, or without a valid backup,
      nothing is replaced. Else the newest valid backup is the document unless its write stopped
      before the rename, and its value is returned exactly when the write succeeded and what
      loading reads of it is sound.
     */
    ghost predicate Recovered(corrupt: Option<Bytes>, unreadable: set<Name>, artifact: bool, replacement: Replacement,
                              r: Loaded<V>)
      reads this
    {
      if !artifact then r == LoadFailed(ArtifactFailed) && primary == corrupt
      else if forall n :: !Candidate(n, unreadable) then r == LoadFailed(RecoveryNeeded) && primary == corrupt
      else
        exists n :: Best(n, unreadable)
          && primary == (if replacement.FailsBefore? then corrupt else Some(backups[n]))
          && r == if !replacement.Replaced? then LoadFailed(ReplaceFailed)
                  else if ReadsBack(backups[n]) then Value(ReadDocument(format, backups[n]).value)
                  else LoadFailed(Unreadable)
    }

    /**
      Loads the document. A sound one of the right version is returned; one of another version is
      refused and left alone; what does not decode, or decodes to an unsound value of the right
      version, is recovered.
     */
    method Load(unreadable: set<Name>, artifact: bool, replacement: Replacement) returns (r: Loaded<V>)
      modifies this
      ensures backups == old(backups)
      ensures old(primary).None? ==> r == Absent && primary == old(primary) && artifacts == old(artifacts)
      ensures old(primary).Some? ==>
        var body := old(primary).value;
        var read := format.parse(if |body| <= 0x100_0000 then body else body[..0x100_0000]);
        && (read.Document? && read.version != 1 ==>
              r == LoadFailed(WrongVersion) && primary == old(primary) && artifacts == old(artifacts))
        && (read.Document? && read.version == 1 && format.sound(read.value) ==>
              r == Value(read.value) && primary == old(primary) && artifacts == old(artifacts))
        && (read.Garbage? || (read.version == 1 && !format.sound(read.value)) ==>
              && Recovered(old(primary), unreadable, artifact, replacement, r)
              && artifacts == if artifact then old(artifacts) + [body] else old(artifacts))
      ensures r.Value? && primary.Some? && |primary.value| <= READ_LIMIT ==> Loads(primary.value, r.value)
    {
      if primary.None? {
        return Absent;
      }
      var parsed := ReadDocument(format, primary.value);
      if parsed.Garbage? {
        r := RecoverAndCheck(unreadable, artifact, replacement);
        return;
      }
      if parsed.version != SCHEMA_VERSION {
        return LoadFailed(WrongVersion);
      }
      if !format.sound(parsed.value) {
        r := RecoverAndCheck(unreadable, artifact, replacement);
        return;
      }
      return Value(parsed.value);
    }

    method RecoverAndCheck(unreadable: set<Name>, artifact: bool, replacement: Replacement) returns (r: Loaded<V>)
      requires primary.Some?
      modifies this
      ensures backups == old(backups)
      ensures artifacts == if artifact then old(artifacts) + [old(primary).value] else old(artifacts)
      ensures Recovered(old(primary), unreadable, artifact, replacement, r)
      ensures r.Value? && primary.Some? && |primary.value| <= READ_LIMIT ==> Loads(primary.value, r.value)
    {
      r := Recover(unreadable, artifact, replacement);
      if r.Value? {
        ghost var n :| Best(n, unreadable) && primary == Some(backups[n]);
        if |backups[n]| <= READ_LIMIT {
          ShortReadsBack(backups[n]);
        }
      }
    }

    /** The backup recovery takes, spelled out. */
    lemma BestExactly(n: Name, unreadable: set<Name>)
      ensures Best(n, unreadable) <==>
        && n in backups && n !in unreadable && IsSoundDocument(backups[n])
        && forall m :: m in backups && m !in unreadable && m != n && IsSoundDocument(backups[m]) ==>
             n.stamp > m.stamp || (n.stamp == m.stamp && n.digest > m.digest)
    {
      assert forall m :: m in backups ==> (Validates(format, backups[m]) <==> IsSoundDocument(backups[m]));
      assert forall m :: Candidate(m, unreadable) <==> m in backups && m !in unreadable && IsSoundDocument(backups[m]);
    }

    predicate IsSoundDocument(body: Bytes) {
      format.parse(body).Document? && format.parse(body).version == 1 && format.sound(format.parse(body).value)
    }
  }
}
