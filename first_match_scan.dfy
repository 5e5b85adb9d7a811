/**
 * The scan behind both `find_type_records`: walk the candidate rows in order,
 * remove each recognised key from a pending set and record the row the first
 * time the key is seen, and stop as soon as nothing is pending.
 */
module FirstMatchScan {
  import opened Wrappers
  import opened Errors

  /**
   * What one row contributes: `Skip` rows are filtered out before the loop
   * body, `Fail` rows abort it, and a `Candidate` runs the body with the key
   * its name maps to (None when the name is not a key at all).
   */
  datatype Step<K, R> = Skip | Fail(failure: Failure) | Candidate(key: Option<K>, item: R)

  /** The scan from row i on, with the keys still pending and the rows found so far. */
  function Scan<K(==), R>(steps: seq<Step<K, R>>, i: nat, pending: set<K>, found: map<K, R>): Result<map<K, R>, Failure>
    requires i <= |steps|
    decreases |steps| - i
  {
    if i == |steps| then Ok(found)
    else
      match steps[i]
      case Skip => Scan(steps, i + 1, pending, found)
      case Fail(e) => Err(e)
      case Candidate(key, item) =>
        var hit := key.Some? && key.value in pending;
        var pending' := if hit then pending - {key.value} else pending;
        var found' := if hit then found[key.value := item] else found;
        if pending' == {} then Ok(found') else Scan(steps, i + 1, pending', found')
  }

  /** The whole scan for a set of requested keys. */
  function ScanAll<K(==), R>(steps: seq<Step<K, R>>, names: set<K>): Result<map<K, R>, Failure> {
    Scan(steps, 0, names, map[])
  }

  predicate IsCandidate<K(==), R>(steps: seq<Step<K, R>>, j: int, k: K) {
    0 <= j < |steps| && steps[j].Candidate? && steps[j].key == Some(k)
  }

  /** Row j is the first row whose name maps to k. */
  predicate IsFirstCandidate<K(==), R>(steps: seq<Step<K, R>>, j: int, k: K) {
    IsCandidate(steps, j, k) && forall j' :: 0 <= j' < j ==> !IsCandidate(steps, j', k)
  }

  /** What holds after the first i rows: every found key was requested and found at its first row, every pending key was not seen yet. */
  ghost predicate Invariant<K(!new), R>(steps: seq<Step<K, R>>, names: set<K>, i: nat, pending: set<K>, found: map<K, R>) {
    && pending <= names
    && found.Keys == names - pending
    && (forall k :: k in found ==> exists j :: j < i && IsFirstCandidate(steps, j, k) && found[k] == steps[j].item)
    && (forall k, j :: k in pending && 0 <= j < i ==> !IsCandidate(steps, j, k))
  }

  /** The promise of the scan's result. */
  ghost predicate Outcome<K(!new), R>(steps: seq<Step<K, R>>, names: set<K>, m: map<K, R>) {
    && m.Keys <= names
    && (forall k :: k in m ==> exists j :: IsFirstCandidate(steps, j, k) && m[k] == steps[j].item)
    && (forall k, j :: k in names && IsCandidate(steps, j, k) ==> k in m)
  }

  lemma {:induction false} ScanFrom<K(!new), R>(steps: seq<Step<K, R>>, names: set<K>, i: nat, pending: set<K>, found: map<K, R>)
    requires i <= |steps|
    requires Invariant(steps, names, i, pending, found)
    requires Scan(steps, i, pending, found).Ok?
    ensures Outcome(steps, names, Scan(steps, i, pending, found).value)
    decreases |steps| - i
  {
    if i < |steps| {
      match steps[i]
      case Skip =>
        assert !steps[i].Candidate?;
        assert Invariant(steps, names, i + 1, pending, found);
        ScanFrom(steps, names, i + 1, pending, found);
      case Candidate(key, item) =>
        var hit := key.Some? && key.value in pending;
        var pending' := if hit then pending - {key.value} else pending;
        var found' := if hit then found[key.value := item] else found;
        if hit {
          assert IsFirstCandidate(steps, i, key.value);
        }
        assert Invariant(steps, names, i + 1, pending', found') by {
          forall k | k in found'
            ensures exists j :: j < i + 1 && IsFirstCandidate(steps, j, k) && found'[k] == steps[j].item
          {
            if hit && k == key.value {
              assert IsFirstCandidate(steps, i, k);
            } else {
              var j :| j < i && IsFirstCandidate(steps, j, k) && found[k] == steps[j].item;
            }
          }
        }
        if pending' != {} {
          ScanFrom(steps, names, i + 1, pending', found');
        }
    }
  }

  /**
   * The result holds only requested keys, each with the first row that
   * carries it, and every requested key that some row carries is found.
   */
  lemma ScanAllOutcome<K(!new), R>(steps: seq<Step<K, R>>, names: set<K>)
    requires ScanAll(steps, names).Ok?
    ensures Outcome(steps, names, ScanAll(steps, names).value)
  {
    ScanFrom(steps, names, 0, names, map[]);
  }

  /** Keys no row carries are simply absent; the scan fails only on a `Fail` row. */
  lemma {:induction false} ScanFailsOnlyOnFail<K, R>(steps: seq<Step<K, R>>, i: nat, pending: set<K>, found: map<K, R>)
    requires i <= |steps|
    requires forall j :: i <= j < |steps| ==> !steps[j].Fail?
    ensures Scan(steps, i, pending, found).Ok?
    decreases |steps| - i
  {
    if i < |steps| {
      var hit := steps[i].Candidate? && steps[i].key.Some? && steps[i].key.value in pending;
      var pending' := if hit then pending - {steps[i].key.value} else pending;
      var found' := if hit then found[steps[i].key.value := steps[i].item] else found;
      if steps[i].Skip? {
        ScanFailsOnlyOnFail(steps, i + 1, pending, found);
      } else if pending' != {} {
        ScanFailsOnlyOnFail(steps, i + 1, pending', found');
      }
    }
  }

  /**
   * The scan stops as soon as every requested key is found: rows after that
   * point, even ones that would fail, never change the result.
   */
  lemma {:induction false} ScanStopsEarly<K(!new), R>(pre: seq<Step<K, R>>, steps: seq<Step<K, R>>, names: set<K>, i: nat, pending: set<K>, found: map<K, R>)
    requires |pre| <= |steps| && pre == steps[..|pre|]
    requires i <= |pre|
    requires pending != {} && pending <= names && found.Keys == names - pending
    requires Scan(pre, i, pending, found).Ok? && Scan(pre, i, pending, found).value.Keys == names
    ensures Scan(steps, i, pending, found) == Scan(pre, i, pending, found)
    decreases |pre| - i
  {
    if i == |pre| {
      assert false;
    } else {
      assert steps[i] == pre[i];
      match pre[i]
      case Skip =>
        ScanStopsEarly(pre, steps, names, i + 1, pending, found);
      case Candidate(key, item) =>
        var hit := key.Some? && key.value in pending;
        var pending' := if hit then pending - {key.value} else pending;
        var found' := if hit then found[key.value := item] else found;
        if pending' != {} {
          ScanStopsEarly(pre, steps, names, i + 1, pending', found');
        }
    }
  }

  /**
   * Before row j the scan from row i has not stopped: some pending key is
   * not carried by any row in between (with nothing pending, no row in
   * between is a candidate at all).
   */
  ghost predicate Undrained<K(!new), R>(steps: seq<Step<K, R>>, i: nat, pending: set<K>, j: int)
    requires i <= j <= |steps|
  {
    || (exists k :: k in pending && forall j' :: i <= j' < j ==> !IsCandidate(steps, j', k))
    || (forall j' :: i <= j' < j ==> steps[j'].Skip?)
  }

  /** Row j is where the scan from row i aborts: the first `Fail` row from i on, reached before the scan stops. */
  ghost predicate AbortsAt<K(!new), R>(steps: seq<Step<K, R>>, i: nat, pending: set<K>, j: int) {
    && i <= j < |steps| && steps[j].Fail?
    && (forall j' :: i <= j' < j ==> !steps[j'].Fail?)
    && Undrained(steps, i, pending, j)
  }

  /** A scan that fails has aborted at some row, with that row's failure. */
  lemma {:induction false} ScanErrAborts<K(!new), R>(steps: seq<Step<K, R>>, i: nat, pending: set<K>, found: map<K, R>)
    requires i <= |steps|
    requires Scan(steps, i, pending, found).Err?
    ensures exists j :: AbortsAt(steps, i, pending, j) && steps[j].failure == Scan(steps, i, pending, found).error
    decreases |steps| - i
  {
    match steps[i]
    case Fail(_) =>
      assert AbortsAt(steps, i, pending, i);
    case Skip =>
      ScanErrAborts(steps, i + 1, pending, found);
      var j :| AbortsAt(steps, i + 1, pending, j) && steps[j].failure == Scan(steps, i + 1, pending, found).error;
      assert AbortsAt(steps, i, pending, j);
    case Candidate(key, item) =>
      var hit := key.Some? && key.value in pending;
      var pending' := if hit then pending - {key.value} else pending;
      var found' := if hit then found[key.value := item] else found;
      ScanErrAborts(steps, i + 1, pending', found');
      var j :| AbortsAt(steps, i + 1, pending', j) && steps[j].failure == Scan(steps, i + 1, pending', found').error;
      var k :| k in pending';
      if exists k' :: k' in pending' && forall j' :: i + 1 <= j' < j ==> !IsCandidate(steps, j', k') {
        k :| k in pending' && forall j' :: i + 1 <= j' < j ==> !IsCandidate(steps, j', k);
      }
      assert forall j' :: i <= j' < j ==> !IsCandidate(steps, j', k);
      assert AbortsAt(steps, i, pending, j);
  }

  /** Once the scan from row i aborts at row j, it fails with row j's failure. */
  lemma {:induction false} ScanAborts<K(!new), R>(steps: seq<Step<K, R>>, i: nat, pending: set<K>, found: map<K, R>, j: int)
    requires i <= |steps|
    requires AbortsAt(steps, i, pending, j)
    ensures Scan(steps, i, pending, found) == Err(steps[j].failure)
    decreases |steps| - i
  {
    if i < j {
      match steps[i]
      case Skip =>
        assert AbortsAt(steps, i + 1, pending, j);
        ScanAborts(steps, i + 1, pending, found, j);
      case Candidate(key, item) =>
        var hit := key.Some? && key.value in pending;
        var pending' := if hit then pending - {key.value} else pending;
        var found' := if hit then found[key.value := item] else found;
        var k :| k in pending && forall j' :: i <= j' < j ==> !IsCandidate(steps, j', k);
        assert !IsCandidate(steps, i, k);
        assert k in pending';
        assert AbortsAt(steps, i + 1, pending', j);
        ScanAborts(steps, i + 1, pending', found', j);
    }
  }

  /** The single-key lookup: scan for {name}, then take name's row out of the result. */
  function FindOne<K(==), R>(steps: seq<Step<K, R>>, name: K): Result<Option<R>, Failure> {
    var found :- ScanAll(steps, {name});
    Ok(if name in found then Some(found[name]) else None)
  }

  /** The single-key lookup gives the first row carrying the key, and None only when no row does. */
  lemma FindOneFirst<K(!new), R>(steps: seq<Step<K, R>>, name: K)
    requires FindOne(steps, name).Ok?
    ensures FindOne(steps, name).value.Some? <==> exists j :: IsCandidate(steps, j, name)
    ensures FindOne(steps, name).value.Some? ==>
      exists j :: IsFirstCandidate(steps, j, name) && FindOne(steps, name).value.value == steps[j].item
  {
    ScanAllOutcome(steps, {name});
  }
}
