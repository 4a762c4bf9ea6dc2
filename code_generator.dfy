/**
 * The code generator used by POST /api/links when no custom code is given: a
 * do-while loop that draws candidates until one matches the code format or ten
 * attempts have been made. The random draw is an oracle `gen`: gen(i) is the
 * candidate of the (i+1)-th attempt.
 */
module CodeGenerator {
  import opened Wrappers
  import opened CodeFormat

  const MaxAttempts: nat := 10

  /** The index of the first well-formed candidate among gen(from) .. gen(MaxAttempts - 1). */
  function FirstValidIndex(gen: nat -> string, from: nat): (r: Option<nat>)
    requires from <= MaxAttempts
    ensures r.Some? ==> from <= r.value < MaxAttempts && IsValidCode(gen(r.value))
    ensures r.Some? ==> forall k :: from <= k < r.value ==> !IsValidCode(gen(k))
    ensures r.None? ==> forall k :: from <= k < MaxAttempts ==> !IsValidCode(gen(k))
    decreases MaxAttempts - from
  {
    if from == MaxAttempts then None
    else if IsValidCode(gen(from)) then Some(from)
    else FirstValidIndex(gen, from + 1)
  }

  /** The code the generator settles on, or None when all ten attempts are malformed. */
  function GeneratedCode(gen: nat -> string): (r: Option<string>)
    ensures r.Some? ==> IsValidCode(r.value)
    ensures r.None? <==> forall k :: 0 <= k < MaxAttempts ==> !IsValidCode(gen(k))
  {
    match FirstValidIndex(gen, 0)
    case Some(i) => Some(gen(i))
    case None => None
  }

  /**
   * The loop itself. It runs at least once and at most MaxAttempts times; it
   * stops at the first well-formed candidate; when it stops on a malformed one
   * all ten attempts are used up. It never consults the store.
   */
  method GenerateCode(gen: nat -> string) returns (code: string, attempts: nat)
    ensures 1 <= attempts <= MaxAttempts
    ensures code == gen(attempts - 1)
    ensures forall k :: 0 <= k < attempts - 1 ==> !IsValidCode(gen(k))
    ensures !IsValidCode(code) ==> attempts == MaxAttempts
    ensures GeneratedCode(gen) == if IsValidCode(code) then Some(code) else None
  {
    code := gen(0);
    attempts := 1;
    while !IsValidCode(code) && attempts < MaxAttempts
      invariant 1 <= attempts <= MaxAttempts
      invariant code == gen(attempts - 1)
      invariant forall k :: 0 <= k < attempts - 1 ==> !IsValidCode(gen(k))
      decreases MaxAttempts - attempts
    {
      code := gen(attempts);
      attempts := attempts + 1;
    }
  }
}
