/**
 * The ordered selector fallback: descriptors are tried in order and the first
 * one that yields an element wins. Call sites differ only in which failures
 * move on to the next descriptor.
 */
module Fallback {
  import opened Wrappers
  import opened Browser

  datatype Policy =
    | Strict    // driver.find_element or wait.until: only "not found" moves on
    | Retrying  // find_element_with_retry: a stale lookup moves on as well
    | Lenient   // find_element_with_retry inside `except Exception: pass`: everything moves on

  /** The lookup yielded an element. */
  predicate Hits(l: Lookup)
  {
    l.Done? && l.value.Some?
  }

  /** Under `policy`, this answer sends the loop on to the next descriptor. */
  predicate Skips(policy: Policy, l: Lookup)
  {
    l == Done(None) || (l.Stale? && policy != Strict) || (l.Failed? && policy == Lenient)
  }

  /** The loop over `sels`: the first descriptor that does not move on decides, by
      yielding its element or by raising; `Done(None)` when every one moved on. */
  function FirstHit(policy: Policy, find: Locator -> Lookup, sels: seq<Locator>): (r: Lookup)
    ensures r == Done(None) <==> forall i :: 0 <= i < |sels| ==> Skips(policy, find(sels[i]))
    ensures r != Done(None) ==>
      exists i :: 0 <= i < |sels| && r == find(sels[i]) && !Skips(policy, find(sels[i]))
                  && forall j :: 0 <= j < i ==> Skips(policy, find(sels[j]))
    ensures policy != Strict ==> !r.Stale?
    ensures policy == Lenient ==> r.Done?
  {
    if sels == [] then Done(None)
    else
      var l := find(sels[0]);
      if Skips(policy, l) then
        var r := FirstHit(policy, find, sels[1..]);
        assert forall i :: 1 <= i < |sels| ==> sels[i] == sels[1..][i - 1];
        r
      else l
  }

  /** The same loop written as the source writes it: a `for` over the descriptors with
      `break` on the first one that does not move on. `consulted` counts the descriptors
      tried; none after the deciding one is looked at. */
  method Resolve(policy: Policy, find: Locator -> Lookup, sels: seq<Locator>) returns (r: Lookup, consulted: nat)
    ensures r == FirstHit(policy, find, sels)
    ensures consulted <= |sels|
    ensures forall j :: 0 <= j < consulted - 1 ==> Skips(policy, find(sels[j]))
    ensures r == Done(None) ==> consulted == |sels|
    ensures r != Done(None) ==> 1 <= consulted && r == find(sels[consulted - 1])
  {
    r, consulted := Done(None), 0;
    while consulted < |sels|
      invariant consulted <= |sels|
      invariant forall j :: 0 <= j < consulted ==> Skips(policy, find(sels[j]))
      invariant FirstHit(policy, find, sels) == FirstHit(policy, find, sels[consulted..])
    {
      var l := find(sels[consulted]);
      assert sels[consulted..][1..] == sels[consulted + 1..];
      consulted := consulted + 1;
      if !Skips(policy, l) {
        r := l;
        break;
      }
    }
  }
}
