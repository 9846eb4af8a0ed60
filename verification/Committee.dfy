/** Indexing a committee from one member's point of view. */
module Committee {
  /** The group order. */
  type Order = n: int | 0 < n witness 1

  /** The k-th party other than me. */
  function Other(me: nat, k: nat): nat { if k < me then k else k + 1 }

  /** The position of party j among the others. */
  function Slot(me: nat, j: nat): nat { if j < me then j else if j > 0 then j - 1 else 0 }

  /** other_parties */
  function OtherParties(count: nat, me: nat): (others: seq<nat>)
    requires me < count
    ensures |others| == count - 1 && forall k :: 0 <= k < count - 1 ==> others[k] == Other(me, k)
  {
    seq(count - 1, k requires 0 <= k < count - 1 => Other(me, k))
  }

  function Everyone(count: nat, me: nat): (all: seq<nat>)
    requires me < count
  {
    [me] + OtherParties(count, me)
  }
}
