/** Slot tables that grow by replacement (kernel/client/registry.rs). */
module Tables {
  import opened Wrappers

  /** First vacancy from `i` on, or the table's length. */
  function FirstVacancy<T>(t: seq<Option<T>>, i: nat): (k: nat)
    requires i <= |t|
    ensures i <= k <= |t|
    ensures k < |t| ==> t[k].None?
    ensures forall j :: i <= j < k ==> t[j].Some?
    decreases |t| - i
  {
    if i == |t| || t[i].None? then i else FirstVacancy(t, i + 1)
  }

  /** `grown_table_length`: none when doubling and the minimum are both no growth. */
  function GrownLength(current: nat, minimum: nat): (r: Option<nat>)
    ensures r.Some? ==> r.value > current && r.value >= minimum && r.value >= 2 * current
    ensures current < minimum ==> r.Some?
  {
    var target := Max(Max(2 * current, minimum), 1);
    if target <= current then None else Some(target)
  }

  /** Tables only ever grow, and new cells start out as `fill`. */
  function Padded<T>(t: seq<T>, length: nat, fill: T): (r: seq<T>)
    ensures t <= r && |r| == Max(|t|, length)
    ensures forall i :: |t| <= i < |r| ==> r[i] == fill
  {
    if length <= |t| then t else t + seq(length - |t|, _ => fill)
  }
}
