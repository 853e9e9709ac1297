/** Machine widths, errors and candidates shared by every policy. */
module Core {
  const U32_LIMIT: int := 0x1_0000_0000
  const U64_LIMIT: int := 0x1_0000_0000_0000_0000
  const U128_LIMIT: int := U64_LIMIT * U64_LIMIT

  type u32 = n: int | 0 <= n < 0x1_0000_0000
  type u64 = n: int | 0 <= n < 0x1_0000_0000_0000_0000

  /** `usize` on a 64-bit target; a result outside it is a verification error. */
  type usize = u64

  /** A positive 32-bit capacity weight. */
  type Weight = n: int | 1 <= n < 0x1_0000_0000 witness 1

  datatype Option<+T> = None | Some(value: T)

  datatype Result<+T, +E> = Ok(value: T) | Err(error: E)

  datatype PickError =
    | Empty
    | NoEligibleCandidates
    | WeightOverflow
    | DuplicateIdentity
    | StateCapacityExceeded
    | LoadOverflow
    | PanicRejected
    | InconsistentTopology

  /** What a policy reads of a backend. */
  datatype Candidate<+Id> = Candidate(id: Id, weight: Weight, eligible: bool)

  function NoCandidateError(count: nat): (e: PickError)
    ensures e == Empty <==> count == 0
    ensures e == NoEligibleCandidates <==> count > 0
  {
    if count == 0 then Empty else NoEligibleCandidates
  }

  /** The slice positions of the eligible candidates, in slice order. */
  function EligibleIndices<Id>(cs: seq<Candidate<Id>>): (r: seq<nat>)
    ensures forall k :: 0 <= k < |r| ==> r[k] < |cs| && cs[r[k]].eligible
    ensures forall j, k :: 0 <= j < k < |r| ==> r[j] < r[k]
    ensures forall i :: 0 <= i < |cs| && cs[i].eligible ==> i in r
  {
    if cs == [] then [] else
      var last := |cs| - 1;
      var r := EligibleIndices(cs[..last]);
      if cs[last].eligible then
        var s := r + [last];
        assert forall i :: 0 <= i < last && cs[i].eligible ==> cs[..last][i].eligible && i in r;
        s
      else
        assert forall i :: 0 <= i < last && cs[i].eligible ==> cs[..last][i].eligible && i in r;
        r
  }

  /** No two eligible candidates share an identity. */
  ghost predicate UniqueEligible<Id>(cs: seq<Candidate<Id>>) {
    forall i, j :: 0 <= i < j < |cs| && cs[i].eligible && cs[j].eligible ==> cs[i].id != cs[j].id
  }
}
