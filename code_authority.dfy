/**
 * generateCode of SubscriptionService/DBFunc.js: draw an 8-digit code, look it up
 * in the requested table, and draw again on a collision, at most MAX_TRIES times.
 *
 * The values Math.random() returns during one call are the stream `random`,
 * a parameter of the call; generation sees the candidate codes those values
 * yield, `candidates`, the n-th try using the n-th value.
 */
module CodeAuthority {
  import opened Wrappers
  import opened Tables

  type UnitReal = r: real | 0.0 <= r < 1.0

  /** The successive values of Math.random(). */
  type Random = nat -> UnitReal

  /** An 8-digit code. */
  type Code = c: int | MIN_CODE <= c <= MAX_CODE witness MIN_CODE

  /** Math.floor(Math.random() * (MAX_CODE - MIN_CODE + 1) + MIN_CODE) for one draw. */
  function Candidate(r: UnitReal): (c: Code)
    ensures (c - MIN_CODE) as real <= r * (MAX_CODE - MIN_CODE + 1) as real < (c - MIN_CODE + 1) as real
  {
    (r * (MAX_CODE - MIN_CODE + 1) as real + MIN_CODE as real).Floor
  }

  /** The candidate code of each successive draw. */
  type Candidates = nat -> Code

  function CandidatesOf(random: Random): Candidates
  {
    (p: nat) => Candidate(random(p))
  }

  predicate InUse(db: Db, k: Kind, code: int)
  {
    code in db.Codes(k)
  }

  /** The code found (or None when every draw collided) and how many draws were made. */
  datatype Generation = Generation(code: Option<int>, draws: nat)

  /**
   * The do-while loop from its `tries`-th draw on: draw, look up, and stop on a
   * free code or once MAX_TRIES draws have been made.
   */
  function Attempt(db: Db, k: Kind, candidates: Candidates, tries: nat): (g: Generation)
    requires 1 <= tries <= MAX_TRIES
    ensures tries <= g.draws <= MAX_TRIES
    ensures g.code.Some? ==> g.code.value == candidates(g.draws - 1)
    ensures g.code.Some? ==> !InUse(db, k, g.code.value) && MIN_CODE <= g.code.value <= MAX_CODE
    ensures g.code.None? ==> g.draws == MAX_TRIES
    decreases MAX_TRIES - tries
  {
    var code := candidates(tries - 1);
    if !InUse(db, k, code) then Generation(Some(code), tries)
    else if tries == MAX_TRIES then Generation(None, tries)
    else Attempt(db, k, candidates, tries + 1)
  }

  /** Every draw before the one the loop stops at collided with a code in use. */
  lemma {:induction false} AttemptCollided(db: Db, k: Kind, candidates: Candidates, tries: nat)
    requires 1 <= tries <= MAX_TRIES
    ensures var g := Attempt(db, k, candidates, tries);
      && (forall p: nat | tries - 1 <= p < g.draws - 1 :: InUse(db, k, candidates(p)))
      && (g.code.None? ==> forall p: nat | tries - 1 <= p < MAX_TRIES :: InUse(db, k, candidates(p)))
    decreases MAX_TRIES - tries
  {
    var code := candidates(tries - 1);
    if InUse(db, k, code) && tries < MAX_TRIES {
      AttemptCollided(db, k, candidates, tries + 1);
    }
  }

  /** A whole call of generateCode, starting at the first try. */
  function Generate(db: Db, k: Kind, candidates: Candidates): Generation
  {
    Attempt(db, k, candidates, 1)
  }

  /**
   * What generateCode promises: a code it returns is free in its table and 8
   * digits long, and is the first free candidate drawn; it returns None only
   * when all MAX_TRIES draws collided; it never draws more than MAX_TRIES times.
   */
  lemma GenerateSound(db: Db, k: Kind, candidates: Candidates)
    ensures var g := Generate(db, k, candidates);
      && 1 <= g.draws <= MAX_TRIES
      && (g.code.Some? ==> !InUse(db, k, g.code.value) && MIN_CODE <= g.code.value <= MAX_CODE)
      && (g.code.Some? ==> g.code.value == candidates(g.draws - 1))
      && (forall p: nat | p < g.draws - 1 :: InUse(db, k, candidates(p)))
      && (g.code.None? <==> g.draws == MAX_TRIES && InUse(db, k, candidates(MAX_TRIES - 1)))
  {
    var g := Generate(db, k, candidates);
    AttemptCollided(db, k, candidates, 1);
    if g.code.None? {
      assert 0 <= MAX_TRIES - 1 < MAX_TRIES;
    } else {
      assert !InUse(db, k, candidates(g.draws - 1));
    }
  }

  /** One of the first MAX_TRIES draws is free in the table of kind `k`. */
  ghost predicate FreeDrawWithin(db: Db, k: Kind, candidates: Candidates)
  {
    exists p: nat | p < MAX_TRIES :: !InUse(db, k, candidates(p))
  }

  /** generateCode finds a code exactly when one of its MAX_TRIES draws is free. */
  lemma GenerateSucceedsIff(db: Db, k: Kind, candidates: Candidates)
    ensures Generate(db, k, candidates).code.Some? <==> FreeDrawWithin(db, k, candidates)
  {
    var g := Generate(db, k, candidates);
    GenerateSound(db, k, candidates);
    if g.code.Some? {
      assert !InUse(db, k, candidates(g.draws - 1));
    } else {
      AttemptCollided(db, k, candidates, 1);
    }
  }

  /** A first draw that is free is taken at once. */
  lemma FreshFirstDraw(db: Db, k: Kind, candidates: Candidates)
    requires !InUse(db, k, candidates(0))
    ensures Generate(db, k, candidates) == Generation(Some(candidates(0)), 1)
  {
  }

  /**
   * A table whose codes already fill the whole 8-digit range makes every
   * generation fail after exactly MAX_TRIES draws.
   */
  lemma {:induction false} ExhaustedTableFails(db: Db, k: Kind, candidates: Candidates, tries: nat)
    requires forall c | MIN_CODE <= c <= MAX_CODE :: c in db.Codes(k)
    requires 1 <= tries <= MAX_TRIES
    ensures Attempt(db, k, candidates, tries) == Generation(None, MAX_TRIES)
    decreases MAX_TRIES - tries
  {
    var code := candidates(tries - 1);
    assert InUse(db, k, code);
    if tries < MAX_TRIES {
      ExhaustedTableFails(db, k, candidates, tries + 1);
    }
  }

  /**
   * The do-while loop of generateCode, run against the committed tables `db`:
   * returns the code found and how many values of Math.random() it used.
   */
  method GenerateCode(db: Db, k: Kind, candidates: Candidates) returns (code: Option<int>, draws: nat)
    ensures Generation(code, draws) == Generate(db, k, candidates)
  {
    var tries: nat := 1;
    while true
      invariant 1 <= tries <= MAX_TRIES
      invariant Attempt(db, k, candidates, tries) == Generate(db, k, candidates)
      decreases MAX_TRIES - tries
    {
      var candidate := candidates(tries - 1);
      var available := candidate !in db.Codes(k);
      if available {
        return Some(candidate), tries;
      }
      if tries == MAX_TRIES {
        return None, tries;
      }
      tries := tries + 1;
    }
  }
}
