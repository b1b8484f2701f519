/**
 State kept per Session, and lists of identified items, as plain values.
 */
module SessionScope {
  import opened Options

  /** A Session's key, or no Session. */
  type Scope = Option<string>

  /** A late answer counts only while the Session it was asked for is the one selected. */
  predicate IsCurrent(current: Scope, captured: Scope) {
    captured.Some? && current == captured
  }

  function ScopedGet<T>(state: map<string, T>, ref: Scope, fallback: T): T {
    if ref.Some? && ref.value in state then state[ref.value] else fallback
  }

  function ScopedSet<T>(state: map<string, T>, ref: Scope, value: T): map<string, T> {
    if ref.None? then state else state[ref.value := value]
  }

  function ScopedUpdate<T>(state: map<string, T>, ref: Scope, fallback: T, update: T -> T): map<string, T> {
    if ref.None? then state else ScopedSet(state, ref, update(ScopedGet(state, ref, fallback)))
  }

  function ScopedClear<T>(state: map<string, T>, ref: Scope): map<string, T> {
    if ref.None? then state else state - {ref.value}
  }

  /** Changing one Session's slice changes no other. */
  lemma OtherSlicesStay<T>(state: map<string, T>, ref: Scope, fallback: T, update: T -> T, value: T, other: Scope, d: T)
    requires other != ref
    ensures ScopedGet(ScopedSet(state, ref, value), other, d) == ScopedGet(state, other, d)
    ensures ScopedGet(ScopedUpdate(state, ref, fallback, update), other, d) == ScopedGet(state, other, d)
    ensures ScopedGet(ScopedClear(state, ref), other, d) == ScopedGet(state, other, d)
    ensures ref.Some? ==> ScopedGet(ScopedSet(state, ref, value), ref, d) == value
    ensures ScopedGet(ScopedClear(state, ref), ref, d) == d
  {
  }

  // ------------------------------------------------------------------ //
  // Lists of identified items
  // ------------------------------------------------------------------ //

  datatype Status = Sending | Failed

  datatype Msg = Msg(id: string, text: string, status: Status)

  predicate HasId(items: seq<Msg>, id: string) {
    exists k :: 0 <= k < |items| && items[k].id == id
  }

  predicate UniqueIds(items: seq<Msg>) {
    forall i, j :: 0 <= i < j < |items| ==> items[i].id != items[j].id
  }

  function UpsertById(items: seq<Msg>, item: Msg): seq<Msg> {
    if items == [] then [item]
    else if items[0].id == item.id then [item] + items[1..]
    else [items[0]] + UpsertById(items[1..], item)
  }

  function RemoveById(items: seq<Msg>, id: string): seq<Msg> {
    if items == [] then []
    else (if items[0].id == id then [] else [items[0]]) + RemoveById(items[1..], id)
  }

  function Fail(items: seq<Msg>, id: string): seq<Msg> {
    if items == [] then []
    else [if items[0].id == id then items[0].(status := Failed) else items[0]] + Fail(items[1..], id)
  }

  /** An upsert puts the item where its id was, or at the end, and leaves the rest in place. */
  lemma {:induction false} UpsertPlaces(items: seq<Msg>, item: Msg)
    requires UniqueIds(items)
    ensures var r := UpsertById(items, item);
            && UniqueIds(r) && item in r
            && |r| == |items| + (if HasId(items, item.id) then 0 else 1)
            && (forall k :: 0 <= k < |items| ==> r[k] == if items[k].id == item.id then item else items[k])
            && (!HasId(items, item.id) ==> r[|items|] == item)
  {
    if items != [] {
      var rest := items[1..];
      if items[0].id == item.id {
        assert forall k :: 0 < k < |items| ==> items[k].id != item.id;
        assert forall k :: 0 < k < |items| ==> rest[k - 1] == items[k];
      } else {
        UpsertPlaces(rest, item);
        var r := UpsertById(rest, item);
        assert HasId(rest, item.id) <==> HasId(items, item.id) by {
          if HasId(items, item.id) {
            var k :| 0 <= k < |items| && items[k].id == item.id;
            assert rest[k - 1].id == item.id;
          }
          if HasId(rest, item.id) {
            var k :| 0 <= k < |rest| && rest[k].id == item.id;
            assert items[k + 1].id == item.id;
          }
        }
        forall k | 0 <= k < |r| ensures r[k].id != items[0].id {
          if k < |rest| { assert rest[k] == items[k + 1]; }
        }
      }
    }
  }

  lemma {:induction false} RemoveRemoves(items: seq<Msg>, id: string)
    requires UniqueIds(items)
    ensures var r := RemoveById(items, id);
            && UniqueIds(r) && !HasId(r, id)
            && forall m :: m in r <==> m in items && m.id != id
  {
    if items != [] {
      RemoveRemoves(items[1..], id);
      var r := RemoveById(items[1..], id);
      forall k | 0 <= k < |r| ensures r[k].id != items[0].id {
        assert r[k] in r;
        assert r[k] in items[1..];
      }
      assert items == [items[0]] + items[1..];
      assert forall m :: m in items <==> m == items[0] || m in items[1..];
    }
  }

  lemma {:induction false} FailKeepsIds(items: seq<Msg>, id: string)
    requires UniqueIds(items)
    ensures var r := Fail(items, id);
            && UniqueIds(r) && |r| == |items|
            && forall k :: 0 <= k < |items| ==>
                 r[k] == if items[k].id == id then items[k].(status := Failed) else items[k]
  {
    if items != [] {
      FailKeepsIds(items[1..], id);
      assert forall k :: 0 < k < |items| ==> items[1..][k - 1] == items[k];
    }
  }
}
