/**
 The retrying writers (tools/_fault_inject_io.py) against a file system that may fail any attempt and leave
 anything behind when it does.
 */
module FaultInjectIo {
  import opened Wrappers

  type Bytes = seq<bv8>

  /** What stands at a path: a file's bytes, or no file. */
  type Content = Option<Bytes>

  /** How one attempt to write goes: through, or an `OSError` with whatever stands at the path after it. */
  datatype Attempt = Through | Failed(left: Content)

  /** The first attempt before `n` that goes through, or `n`. */
  function FirstThrough(plan: nat -> Attempt, n: nat): (k: nat)
    ensures k <= n
    ensures forall j: nat | j < k :: plan(j).Failed?
    ensures k < n ==> plan(k).Through?
  {
    if n == 0 then 0
    else
      var k := FirstThrough(plan, n - 1);
      if k < n - 1 || plan(n - 1).Through? then k else n
  }

  /** No attempt within the limit goes through. */
  predicate Hopeless(plan: nat -> Attempt, attempts: nat) {
    FirstThrough(plan, attempts) == attempts
  }

  /** What stands at the path once a writer of `data` has returned or given up. */
  function Settled(before: Content, data: Bytes, attempts: nat, plan: nat -> Attempt): Content {
    if !Hopeless(plan, attempts) then Some(data)
    else if attempts == 0 then before
    else plan(attempts - 1).left
  }

  /** Delay units slept over the first `k` failures, one more after each. */
  function Slept(k: nat): nat {
    if k == 0 then 0 else Slept(k - 1) + k
  }

  lemma {:induction false} SleptIsTriangular(k: nat)
    ensures 2 * Slept(k) == k * (k + 1)
  {
    if 0 < k { SleptIsTriangular(k - 1); }
  }

  /** Returning at attempt `k` waits less than giving up after `n` would. */
  lemma Shorter(k: nat, n: nat)
    requires k < n
    ensures 2 * Slept(k) <= (n - 1) * n
  {
    SleptIsTriangular(k);
    Products(k, n - 1);
  }

  lemma Products(a: nat, b: nat)
    requires a <= b
    ensures a * (a + 1) <= b * (b + 1)
  {
    assert b * (b + 1) == a * (a + 1) + (b - a) * (a + b + 1);
  }

  /** A path being written, and the clock its writer sleeps on. */
  class Target {
    var content: Content
    var slept: nat

    constructor (content: Content)
      ensures this.content == content && slept == 0
    {
      this.content := content;
      slept := 0;
    }

    /**
     Writes `data`, retrying: it returns exactly when an attempt within the limit goes through, and then
     the file holds `data`; otherwise it raises and the last failure's leavings stay.
     */
    method WriteBytes(data: Bytes, attempts: nat, plan: nat -> Attempt) returns (raised: bool)
      modifies this
      ensures raised <==> forall k: nat | k < attempts :: plan(k).Failed?
      ensures content == Settled(old(content), data, attempts, plan)
      ensures !raised ==> content == Some(data) && slept == old(slept) + Slept(FirstThrough(plan, attempts))
      ensures !raised ==> 2 * (slept - old(slept)) <= (attempts - 1) * attempts
      ensures raised ==> 2 * (slept - old(slept)) == attempts * (attempts + 1)
    {
      var attempt: nat := 0;
      while attempt < attempts
        invariant attempt <= attempts
        invariant forall k: nat | k < attempt :: plan(k).Failed?
        invariant slept == old(slept) + Slept(attempt)
        invariant content == if attempt == 0 then old(content) else plan(attempt - 1).left
      {
        match plan(attempt)
        case Through =>
          content := Some(data);
          assert FirstThrough(plan, attempts) == attempt;
          Shorter(attempt, attempts);
          return false;
        case Failed(left) =>
          content := left;
          slept := slept + attempt + 1;
        attempt := attempt + 1;
      }
      SleptIsTriangular(attempts);
      return true;
    }

    /** Writes a backup file's bytes; the backup is read once, before the first attempt. */
    method RestoreBytes(backup: Content, attempts: nat, plan: nat -> Attempt) returns (raised: bool)
      modifies this
      ensures raised <==> backup.None? || forall k: nat | k < attempts :: plan(k).Failed?
      ensures !raised ==> content == backup
      ensures backup.None? ==> content == old(content) && slept == old(slept)
      ensures backup.Some? ==> content == Settled(old(content), backup.value, attempts, plan)
      ensures !raised ==> 2 * (slept - old(slept)) <= (attempts - 1) * attempts
      ensures raised && backup.Some? ==> 2 * (slept - old(slept)) == attempts * (attempts + 1)
    {
      if backup.None? {
        return true;
      }
      raised := WriteBytes(backup.value, attempts, plan);
    }

    /**
     Copies a backup over the path, reading the backup again at every attempt: what a successful restore
     leaves is the backup as it was at that attempt, so a backup nobody touches comes back whole.
     */
    method Restore(backup: nat -> Bytes, attempts: nat, plan: nat -> Attempt) returns (raised: bool)
      modifies this
      ensures raised <==> forall k: nat | k < attempts :: plan(k).Failed?
      ensures !raised ==> content == Some(backup(FirstThrough(plan, attempts)))
      ensures forall b | (forall k: nat | k < attempts :: backup(k) == b) ::
                content == Settled(old(content), b, attempts, plan)
      ensures !raised ==> 2 * (slept - old(slept)) <= (attempts - 1) * attempts
      ensures raised ==> 2 * (slept - old(slept)) == attempts * (attempts + 1)
    {
      var attempt: nat := 0;
      while attempt < attempts
        invariant attempt <= attempts
        invariant forall k: nat | k < attempt :: plan(k).Failed?
        invariant slept == old(slept) + Slept(attempt)
        invariant content == if attempt == 0 then old(content) else plan(attempt - 1).left
      {
        match plan(attempt)
        case Through =>
          content := Some(backup(attempt));
          assert FirstThrough(plan, attempts) == attempt;
          Shorter(attempt, attempts);
          return false;
        case Failed(left) =>
          content := left;
          slept := slept + attempt + 1;
        attempt := attempt + 1;
      }
      SleptIsTriangular(attempts);
      return true;
    }
  }

  const ATTEMPTS: nat := 20
  const DELAY_MS: nat := 20

  /**
   With the shipped defaults a restore that returns has waited under four seconds, as the module promises;
   one that raises has waited 4.2.
   */
  lemma DefaultWait(k: nat)
    requires k <= ATTEMPTS
    ensures k < ATTEMPTS ==> DELAY_MS * Slept(k) < 4000
    ensures DELAY_MS * Slept(ATTEMPTS) == 4200
  {
    SleptIsTriangular(ATTEMPTS);
    if k < ATTEMPTS { Shorter(k, ATTEMPTS); }
  }
}
