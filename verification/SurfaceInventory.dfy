/** The public SQL inventory: a history of classified revisions for each entry, and what is public at a release. */
module SurfaceInventory {
  import opened Results

  datatype Argument = Argument(name: string, duckdbType: string, required: bool, nullable: bool, origin: string)
  datatype Column = Column(name: string, duckdbType: string, nullable: bool)
  datatype ResultVariant = ResultVariant(selector: string, columns: seq<Column>)
  datatype Shape = Shape(arguments: seq<Argument>, results: seq<ResultVariant>, behaviors: seq<string>)

  datatype State = Active | Deprecated | Removed
  datatype Classification =
    | Baseline | CompatibleAddition | CompatibleChange | Deprecation | IncompatibleChange | Removal

  /** A SemVer release; its canonical spelling and its three numbers determine each other. */
  datatype Release = Release(major: nat, minor: nat, patch: nat)

  datatype Revision = Revision(release: Release, state: State, classification: Classification, shape: Option<string>)
  datatype Entry = Entry(id: string, revisions: seq<Revision>)

  datatype Error = Redundant

  predicate AtMost(r: Release, s: Release) {
    r.major < s.major || (r.major == s.major && (r.minor < s.minor || (r.minor == s.minor && r.patch <= s.patch)))
  }

  predicate Before(r: Release, s: Release) {
    AtMost(r, s) && r != s
  }

  /** The place of a release when its minor and patch numbers stay below `base`. */
  function Place(r: Release, base: nat): nat {
    (r.major * base + r.minor) * base + r.patch
  }

  lemma DigitOrder(high: nat, low: nat, high': nat, low': nat, base: nat)
    requires low < base && low' < base
    ensures high * base + low <= high' * base + low' <==> high < high' || (high == high' && low <= low')
  {
    if high < high' {
      assert high * base + base == (high + 1) * base <= high' * base;
    } else if high' < high {
      assert high' * base + base == (high' + 1) * base <= high * base;
    }
  }

  /** Releases compare by major, minor and patch, as numbers to any base that is large enough. */
  lemma AtMostIff(r: Release, s: Release, base: nat)
    requires r.minor < base && s.minor < base && r.patch < base && s.patch < base
    ensures AtMost(r, s) <==> Place(r, base) <= Place(s, base)
  {
    DigitOrder(r.major, r.minor, s.major, s.minor, base);
    DigitOrder(s.major, s.minor, r.major, r.minor, base);
    DigitOrder(r.major * base + r.minor, r.patch, s.major * base + s.minor, s.patch, base);
  }

  // ----- Shapes

  /** Arguments by name; a later argument replaces an earlier one of its name. */
  function ByName(arguments: seq<Argument>): map<string, Argument> {
    if arguments == [] then map[]
    else var last := arguments[|arguments| - 1]; ByName(arguments[..|arguments| - 1])[last.name := last]
  }

  /** A name stands for the last argument that carries it. */
  lemma {:induction false} ByNameIff(arguments: seq<Argument>, name: string, a: Argument)
    ensures name in ByName(arguments) && ByName(arguments)[name] == a <==>
              exists i :: && 0 <= i < |arguments| && arguments[i] == a && a.name == name
                          && forall j :: i < j < |arguments| ==> arguments[j].name != name
  {
    if arguments != [] {
      var front, last := arguments[..|arguments| - 1], arguments[|arguments| - 1];
      ByNameIff(front, name, a);
      if last.name != name {
        if i :| && 0 <= i < |front| && front[i] == a && a.name == name
                && forall j :: i < j < |front| ==> front[j].name != name {
          assert arguments[i] == a && forall j :: i < j < |arguments| ==> arguments[j].name != name;
        }
        if i :| && 0 <= i < |arguments| && arguments[i] == a && a.name == name
                && forall j :: i < j < |arguments| ==> arguments[j].name != name {
          assert front[i] == a && forall j :: i < j < |front| ==> front[j].name != name;
        }
      } else {
        assert arguments[|arguments| - 1].name == name;
      }
    }
  }

  predicate ShapeChangeIsCompatible(previous: Shape, current: Shape) {
    if previous.results != current.results || previous.behaviors != current.behaviors then false
    else
      var before, after := ByName(previous.arguments), ByName(current.arguments);
      if exists name :: name in before && (name !in after || after[name] != before[name]) then false
      else
        var additions := after.Keys - before.Keys;
        additions != {} && forall name :: name in additions ==> !after[name].required
  }

  /** What a user of the earlier shape keeps under the later one. */
  ghost predicate Serves(earlier: Shape, later: Shape) {
    && earlier.results == later.results
    && earlier.behaviors == later.behaviors
    && var before, after := ByName(earlier.arguments), ByName(later.arguments);
       && (forall name :: name in before ==> name in after && after[name] == before[name])
       && (forall name :: name in after && name !in before ==> !after[name].required)
  }

  /** A call that names the arguments `supplied` fits a shape. */
  ghost predicate Accepts(shape: Shape, supplied: set<string>) {
    var arguments := ByName(shape.arguments);
    && supplied <= arguments.Keys
    && forall name :: name in arguments && arguments[name].required ==> name in supplied
  }

  /** A shape change is compatible exactly when the later shape serves the earlier one and takes some argument more. */
  lemma CompatibleIffServesMore(previous: Shape, current: Shape)
    ensures ShapeChangeIsCompatible(previous, current) <==>
              Serves(previous, current) && ByName(previous.arguments) != ByName(current.arguments)
  {
    var before, after := ByName(previous.arguments), ByName(current.arguments);
    var additions := after.Keys - before.Keys;
    if Serves(previous, current) {
      if additions == {} {
        assert forall name :: name in after ==> name in before by {
          assert after.Keys <= before.Keys + additions;
        }
        assert before == after;
      } else {
        assert before.Keys != after.Keys;
        assert forall name :: name in before ==> name in after && after[name] == before[name];
      }
    }
    if ShapeChangeIsCompatible(previous, current) {
      assert before.Keys != after.Keys;
    }
  }

  lemma ServesTransitive(a: Shape, b: Shape, c: Shape)
    requires Serves(a, b) && Serves(b, c)
    ensures Serves(a, c)
  {
  }

  lemma ServedCall(earlier: Shape, later: Shape, supplied: set<string>)
    requires Serves(earlier, later)
    ensures earlier.results == later.results && earlier.behaviors == later.behaviors
    ensures Accepts(earlier, supplied) ==> Accepts(later, supplied)
  {
  }

  /** For a later shape that keeps the earlier arguments, serving is exactly that no call stops being accepted. */
  lemma ServesIffCallsKeep(earlier: Shape, later: Shape)
    requires earlier.results == later.results && earlier.behaviors == later.behaviors
    requires var before, after := ByName(earlier.arguments), ByName(later.arguments);
             forall name :: name in before ==> name in after && after[name] == before[name]
    ensures Serves(earlier, later) <==> forall supplied :: Accepts(earlier, supplied) ==> Accepts(later, supplied)
  {
    var before, after := ByName(earlier.arguments), ByName(later.arguments);
    if forall supplied :: Accepts(earlier, supplied) ==> Accepts(later, supplied) {
      assert Accepts(earlier, before.Keys);
      assert Accepts(later, before.Keys);
    }
  }

  // ----- Classification

  function Classify(previous: Option<Revision>, current: Revision, baseline: Release, shapes: map<string, Shape>):
    Result<Classification, Error>
    requires previous.Some? && previous.value.shape.Some? ==> previous.value.shape.value in shapes
    requires current.shape.Some? ==> current.shape.value in shapes
  {
    if previous.None? then Ok(if current.release == baseline then Baseline else CompatibleAddition)
    else
      var p := previous.value;
      if current.state == Removed then Ok(Removal)
      else if p.state == Active && current.state == Deprecated then
        Ok(if p.shape == current.shape then Deprecation else IncompatibleChange)
      else if p.shape == current.shape && p.state == current.state then Err(Redundant)
      else if p.state == Active && current.state == Active && p.shape.Some? && current.shape.Some?
              && ShapeChangeIsCompatible(shapes[p.shape.value], shapes[current.shape.value]) then Ok(CompatibleChange)
      else Ok(IncompatibleChange)
  }

  // ----- Accepted histories

  /** A live revision names a known shape and a removed one names none. */
  predicate ShapeOk(revision: Revision, shapes: map<string, Shape>) {
    if revision.state == Removed then revision.shape.None?
    else revision.shape.Some? && revision.shape.value in shapes
  }

  predicate Governed(revision: Revision, baseline: Release, planned: Release, shapes: map<string, Shape>) {
    AtMost(baseline, revision.release) && AtMost(revision.release, planned) && ShapeOk(revision, shapes)
  }

  function Previous(revisions: seq<Revision>, k: nat): Option<Revision>
    requires k <= |revisions|
  {
    if k == 0 then None else Some(revisions[k - 1])
  }

  predicate StrictlyOrdered(revisions: seq<Revision>) {
    forall i, j :: 0 <= i < j < |revisions| ==> Before(revisions[i].release, revisions[j].release)
  }

  /** What one revision must meet, given the revision before it. */
  predicate RevisionOk(revisions: seq<Revision>, k: nat, baseline: Release, planned: Release,
                       shapes: map<string, Shape>)
    requires k < |revisions|
  {
    && Governed(revisions[k], baseline, planned, shapes)
    && (k == 0 ==> revisions[k].state == Active)
    && (k > 0 ==> ShapeOk(revisions[k - 1], shapes))
    && Classify(Previous(revisions, k), revisions[k], baseline, shapes) == Ok(revisions[k].classification)
  }

  predicate Accepted(revisions: seq<Revision>, baseline: Release, planned: Release, shapes: map<string, Shape>) {
    && StrictlyOrdered(revisions)
    && forall k :: 0 <= k < |revisions| ==> RevisionOk(revisions, k, baseline, planned, shapes)
  }

  lemma {:induction false} OrderFromNeighbours(revisions: seq<Revision>, i: nat, j: nat)
    requires i < j < |revisions|
    requires forall k :: 0 < k < |revisions| ==> Before(revisions[k - 1].release, revisions[k].release)
    ensures Before(revisions[i].release, revisions[j].release)
  {
    if i < j - 1 {
      OrderFromNeighbours(revisions, i, j - 1);
    }
    assert Before(revisions[j - 1].release, revisions[j].release);
  }

  /** The releases of an entry strictly increase. */
  method CheckOrder(revisions: seq<Revision>) returns (ordered: bool)
    ensures ordered <==> StrictlyOrdered(revisions)
  {
    if revisions == [] {
      return true;
    }
    for k := 1 to |revisions|
      invariant forall m :: 0 < m < k ==> Before(revisions[m - 1].release, revisions[m].release)
    {
      if !Before(revisions[k - 1].release, revisions[k].release) {
        return false;
      }
    }
    forall i, j | 0 <= i < j < |revisions| ensures Before(revisions[i].release, revisions[j].release) {
      OrderFromNeighbours(revisions, i, j);
    }
    return true;
  }

  /** The revision loop: an entry's history passes exactly when it is accepted, and the shapes its live revisions name
      are collected. */
  method VerifyRevisions(revisions: seq<Revision>, baseline: Release, planned: Release, shapes: map<string, Shape>)
    returns (out: Outcome, referenced: set<string>)
    ensures out.Pass? <==> Accepted(revisions, baseline, planned, shapes)
    ensures out.Pass? ==>
              referenced == set k | 0 <= k < |revisions| && revisions[k].state != Removed && revisions[k].shape.Some?
                            :: revisions[k].shape.value
  {
    hide Classify;
    referenced := {};
    var ordered := CheckOrder(revisions);
    if !ordered {
      return Fail, referenced;
    }
    var previous: Option<Revision> := None;
    for index := 0 to |revisions|
      invariant previous == Previous(revisions, index)
      invariant forall k :: 0 <= k < index ==> RevisionOk(revisions, k, baseline, planned, shapes)
      invariant referenced == set k | 0 <= k < index && revisions[k].state != Removed && revisions[k].shape.Some?
                              :: revisions[k].shape.value
    {
      var revision := revisions[index];
      assert index > 0 ==> RevisionOk(revisions, index - 1, baseline, planned, shapes);
      if !AtMost(baseline, revision.release) {
        assert !RevisionOk(revisions, index, baseline, planned, shapes);
        return Fail, referenced;
      }
      if previous.None? && revision.state != Active {
        assert !RevisionOk(revisions, index, baseline, planned, shapes);
        return Fail, referenced;
      }
      if !AtMost(revision.release, planned) {
        assert !RevisionOk(revisions, index, baseline, planned, shapes);
        return Fail, referenced;
      }
      if revision.state == Removed {
        if revision.shape.Some? {
          assert !RevisionOk(revisions, index, baseline, planned, shapes);
          return Fail, referenced;
        }
      } else {
        if revision.shape.None? || revision.shape.value !in shapes {
          assert !RevisionOk(revisions, index, baseline, planned, shapes);
          return Fail, referenced;
        }
        referenced := referenced + {revision.shape.value};
      }
      var expected := Classify(previous, revision, baseline, shapes);
      if expected != Ok(revision.classification) {
        assert !RevisionOk(revisions, index, baseline, planned, shapes);
        return Fail, referenced;
      }
      previous := Some(revision);
    }
    return Pass, referenced;
  }

  /** What the label of a revision in an accepted history means. */
  lemma AcceptedLabels(revisions: seq<Revision>, k: nat, baseline: Release, planned: Release,
                       shapes: map<string, Shape>)
    requires Accepted(revisions, baseline, planned, shapes) && k < |revisions|
    ensures var r := revisions[k];
            && (r.classification == Baseline <==> k == 0 && r.release == baseline)
            && (r.classification == CompatibleAddition <==> k == 0 && Before(baseline, r.release))
            && (r.classification == Removal <==> r.state == Removed)
    ensures k > 0 && revisions[k].state != Removed ==>
              var p, r := revisions[k - 1], revisions[k];
              && ShapeOk(p, shapes) && ShapeOk(r, shapes) && !(p.state == r.state && p.shape == r.shape)
              && (r.classification == Deprecation <==> p.state == Active && r.state == Deprecated && p.shape == r.shape)
              && (r.classification == CompatibleChange <==>
                    && p.state == Active && r.state == Active
                    && var earlier, later := shapes[p.shape.value], shapes[r.shape.value];
                       Serves(earlier, later) && ByName(earlier.arguments) != ByName(later.arguments))
              && (r.classification == IncompatibleChange <==>
                    || p.state != Active
                    || (r.state == Deprecated && p.shape != r.shape)
                    || (r.state == Active
                        && var earlier, later := shapes[p.shape.value], shapes[r.shape.value];
                           !(Serves(earlier, later) && ByName(earlier.arguments) != ByName(later.arguments))))
  {
    hide ShapeChangeIsCompatible, Serves, ByName, StrictlyOrdered;
    assert RevisionOk(revisions, k, baseline, planned, shapes);
    if k > 0 {
      var p, r := revisions[k - 1], revisions[k];
      assert RevisionOk(revisions, k - 1, baseline, planned, shapes);
      if p.shape.Some? && r.shape.Some? {
        CompatibleIffServesMore(shapes[p.shape.value], shapes[r.shape.value]);
      }
    }
  }

  // ----- Compatibility over a history

  /** No revision after `i` up to `j` is a removal or an incompatible change. */
  predicate Undisturbed(revisions: seq<Revision>, i: nat, j: nat)
    requires i <= j < |revisions|
  {
    forall k :: i < k <= j ==>
        revisions[k].classification != Removal && revisions[k].classification != IncompatibleChange
  }

  function ShapeAt(revisions: seq<Revision>, k: nat, shapes: map<string, Shape>): Shape
    requires k < |revisions| && revisions[k].state != Removed && ShapeOk(revisions[k], shapes)
  {
    shapes[revisions[k].shape.value]
  }

  /** One undisturbed step starts from an active revision and ends in a live one that serves it. */
  lemma StepServes(revisions: seq<Revision>, k: nat, baseline: Release, planned: Release, shapes: map<string, Shape>)
    requires Accepted(revisions, baseline, planned, shapes) && 0 < k < |revisions| && Undisturbed(revisions, k - 1, k)
    ensures revisions[k - 1].state == Active && revisions[k].state != Removed
    ensures ShapeOk(revisions[k - 1], shapes) && ShapeOk(revisions[k], shapes)
    ensures Serves(ShapeAt(revisions, k - 1, shapes), ShapeAt(revisions, k, shapes))
  {
    assert RevisionOk(revisions, k - 1, baseline, planned, shapes);
    assert RevisionOk(revisions, k, baseline, planned, shapes);
  }

  /** Compatibility composes: across any undisturbed stretch the results and behaviours stay equal, the earlier
      arguments stay unchanged and every added argument is optional; and only its last revision can be deprecated. */
  lemma {:induction false} CompatibilityComposes(
    revisions: seq<Revision>, i: nat, j: nat, baseline: Release, planned: Release, shapes: map<string, Shape>)
    requires Accepted(revisions, baseline, planned, shapes) && i < j < |revisions| && Undisturbed(revisions, i, j)
    ensures forall k :: i <= k < j ==> revisions[k].state == Active
    ensures revisions[j].state != Removed && ShapeOk(revisions[i], shapes) && ShapeOk(revisions[j], shapes)
    ensures Serves(ShapeAt(revisions, i, shapes), ShapeAt(revisions, j, shapes))
  {
    StepServes(revisions, j, baseline, planned, shapes);
    if i < j - 1 {
      CompatibilityComposes(revisions, i, j - 1, baseline, planned, shapes);
      ServesTransitive(ShapeAt(revisions, i, shapes), ShapeAt(revisions, j - 1, shapes), ShapeAt(revisions, j, shapes));
    }
  }

  // ----- What is public at a release

  /** The index of the last listed revision released by `target`. */
  function LastBy(revisions: seq<Revision>, target: Release): (at: Option<nat>)
    ensures at.Some? ==> at.value < |revisions| && AtMost(revisions[at.value].release, target)
    ensures at.Some? ==> forall k :: at.value < k < |revisions| ==> !AtMost(revisions[k].release, target)
    ensures at.None? ==> forall k :: 0 <= k < |revisions| ==> !AtMost(revisions[k].release, target)
  {
    if revisions == [] then None
    else if AtMost(revisions[|revisions| - 1].release, target) then Some(|revisions| - 1)
    else
      var at := LastBy(revisions[..|revisions| - 1], target);
      at
  }

  predicate LiveAt(entry: Entry, target: Release) {
    var at := LastBy(entry.revisions, target);
    at.Some? && entry.revisions[at.value].state != Removed
  }

  predicate RemovedAt(entry: Entry, target: Release) {
    var at := LastBy(entry.revisions, target);
    at.Some? && entry.revisions[at.value].state == Removed
  }

  predicate UniqueIds(entries: seq<Entry>) {
    forall i, j :: 0 <= i < j < |entries| ==> entries[i].id != entries[j].id
  }

  method SelectRevision(revisions: seq<Revision>, target: Release) returns (selected: Option<Revision>)
    ensures var at := LastBy(revisions, target);
            selected == if at.Some? then Some(revisions[at.value]) else None
  {
    selected := None;
    ghost var at: Option<nat> := None;
    for k := 0 to |revisions|
      invariant at == LastBy(revisions[..k], target)
      invariant selected == if at.Some? then Some(revisions[at.value]) else None
    {
      assert revisions[..k + 1][..k] == revisions[..k];
      if AtMost(revisions[k].release, target) {
        selected := Some(revisions[k]);
        at := Some(k);
      }
    }
    assert revisions[..|revisions|] == revisions;
  }

  /** With distinct entry ids, an id is active or removed by its entry's last revision, and never both. */
  method Materialize(entries: seq<Entry>, target: Release) returns (active: set<string>, removed: set<string>)
    ensures active == set i | 0 <= i < |entries| && LiveAt(entries[i], target) :: entries[i].id
    ensures removed == set i | 0 <= i < |entries| && RemovedAt(entries[i], target) :: entries[i].id
    ensures UniqueIds(entries) ==> active !! removed
  {
    active, removed := {}, {};
    for n := 0 to |entries|
      invariant active == set i | 0 <= i < n && LiveAt(entries[i], target) :: entries[i].id
      invariant removed == set i | 0 <= i < n && RemovedAt(entries[i], target) :: entries[i].id
    {
      var selected := SelectRevision(entries[n].revisions, target);
      if selected.Some? {
        if selected.value.state == Removed {
          removed := removed + {entries[n].id};
        } else {
          active := active + {entries[n].id};
        }
      }
    }
  }

  /** A later release selects the same or a later revision of an ordered history. */
  lemma LastByMonotone(revisions: seq<Revision>, r: Release, s: Release)
    requires AtMost(r, s) && LastBy(revisions, r).Some?
    ensures LastBy(revisions, s).Some? && LastBy(revisions, r).value <= LastBy(revisions, s).value
  {
    var i := LastBy(revisions, r).value;
    assert AtMost(revisions[i].release, s);
  }

  /** The selected revision is the one whose release is the latest by the target. */
  lemma LastByIff(revisions: seq<Revision>, target: Release, k: nat)
    requires StrictlyOrdered(revisions) && k < |revisions|
    ensures LastBy(revisions, target) == Some(k) <==>
              && AtMost(revisions[k].release, target)
              && (k + 1 < |revisions| ==> Before(target, revisions[k + 1].release))
  {
    var at := LastBy(revisions, target);
    if AtMost(revisions[k].release, target) && at.Some? && k < at.value {
      assert k + 1 < at.value ==> Before(revisions[k + 1].release, revisions[at.value].release);
    }
  }

  lemma LiveHasShape(revisions: seq<Revision>, k: nat, baseline: Release, planned: Release, shapes: map<string, Shape>)
    requires Accepted(revisions, baseline, planned, shapes) && k < |revisions|
    ensures ShapeOk(revisions[k], shapes)
  {
    assert RevisionOk(revisions, k, baseline, planned, shapes);
  }

  /** Upgrading from one release to a later one keeps every call working, with equal results and behaviours, if no
      revision in between removes the entry or changes it incompatibly. */
  lemma UpgradeKeepsCalls(
    entry: Entry, r: Release, s: Release, supplied: set<string>, baseline: Release, planned: Release,
    shapes: map<string, Shape>)
    requires Accepted(entry.revisions, baseline, planned, shapes)
    requires AtMost(r, s) && LiveAt(entry, r)
    requires var i, at := LastBy(entry.revisions, r).value, LastBy(entry.revisions, s);
             at.Some? && i <= at.value ==> Undisturbed(entry.revisions, i, at.value)
    ensures LiveAt(entry, s)
    ensures var i, j := LastBy(entry.revisions, r).value, LastBy(entry.revisions, s).value;
            && ShapeOk(entry.revisions[i], shapes) && ShapeOk(entry.revisions[j], shapes)
            && var old', new' := ShapeAt(entry.revisions, i, shapes), ShapeAt(entry.revisions, j, shapes);
               && old'.results == new'.results && old'.behaviors == new'.behaviors
               && (Accepts(old', supplied) ==> Accepts(new', supplied))
  {
    hide LastBy, Serves, Accepts, RevisionOk, Undisturbed, AtMost, StrictlyOrdered;
    LastByMonotone(entry.revisions, r, s);
    var i, j := LastBy(entry.revisions, r).value, LastBy(entry.revisions, s).value;
    if i < j {
      CompatibilityComposes(entry.revisions, i, j, baseline, planned, shapes);
      ServedCall(ShapeAt(entry.revisions, i, shapes), ShapeAt(entry.revisions, j, shapes), supplied);
    } else {
      LiveHasShape(entry.revisions, i, baseline, planned, shapes);
    }
  }
}
