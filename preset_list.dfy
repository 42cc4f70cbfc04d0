/** The list edits behind `removePreset` and `updatePreset`: a filter and a map by id. */
module PresetList {
  import opened TimerTypes

  /** `presets.filter(p => p.id !== id)`. */
  function WithoutId(ps: seq<Preset>, id: string): (r: seq<Preset>)
    ensures |r| <= |ps|
    ensures forall p :: p in r <==> p in ps && p.id != id
    decreases |ps|
  {
    if ps == [] then []
    else (if ps[0].id != id then [ps[0]] else []) + WithoutId(ps[1..], id)
  }

  /** `presets.map(p => p.id === q.id ? q : p)`. */
  function Replaced(ps: seq<Preset>, q: Preset): (r: seq<Preset>)
    ensures |r| == |ps|
    ensures forall i :: 0 <= i < |ps| ==> r[i] == if ps[i].id == q.id then q else ps[i]
    decreases |ps|
  {
    if ps == [] then []
    else [if ps[0].id == q.id then q else ps[0]] + Replaced(ps[1..], q)
  }

  predicate HasId(ps: seq<Preset>, id: string)
  {
    exists i :: 0 <= i < |ps| && ps[i].id == id
  }

  /** Filtering keeps the relative order: it works piecewise on a concatenation. */
  lemma {:induction false} WithoutIdConcat(a: seq<Preset>, b: seq<Preset>, id: string)
    ensures WithoutId(a + b, id) == WithoutId(a, id) + WithoutId(b, id)
    decreases |a|
  {
    if a == [] {
      assert a + b == b;
    } else {
      assert (a + b)[0] == a[0] && (a + b)[1..] == a[1..] + b;
      WithoutIdConcat(a[1..], b, id);
    }
  }

  /** Removing an id that no preset carries leaves the list as it was. */
  lemma {:induction false} WithoutUnknownId(ps: seq<Preset>, id: string)
    requires !HasId(ps, id)
    ensures WithoutId(ps, id) == ps
    decreases |ps|
  {
    if ps != [] {
      assert !HasId(ps[1..], id) by {
        forall i | 0 <= i < |ps[1..]| ensures ps[1..][i].id != id {
          assert ps[1..][i] == ps[i + 1];
        }
      }
      WithoutUnknownId(ps[1..], id);
      assert [ps[0]] + ps[1..] == ps;
    }
  }

  /** Whenever an id is present, removing it shortens the list by the number of carriers. */
  function CountId(ps: seq<Preset>, id: string): (n: nat)
    ensures n <= |ps|
    ensures n == 0 <==> !HasId(ps, id)
    decreases |ps|
  {
    if ps == [] then 0
    else (if ps[0].id == id then 1 else 0) + CountId(ps[1..], id)
  }

  lemma {:induction false} WithoutIdLength(ps: seq<Preset>, id: string)
    ensures |WithoutId(ps, id)| == |ps| - CountId(ps, id)
    decreases |ps|
  {
    if ps != [] {
      WithoutIdLength(ps[1..], id);
    }
  }

  /** Updating an id that no preset carries leaves the list as it was. */
  lemma ReplacedUnknownId(ps: seq<Preset>, q: Preset)
    requires !HasId(ps, q.id)
    ensures Replaced(ps, q) == ps
  {
  }

  /** Adding a preset under a fresh id and then updating it yields the old list followed
      by the updated preset, whatever fields the update changed. */
  lemma AddThenUpdate(ps: seq<Preset>, draft: PresetDraft, id: string, q: Preset)
    requires !HasId(ps, id) && q.id == id
    ensures Replaced(ps + [WithId(draft, id)], q) == ps + [q]
  {
    var r := Replaced(ps + [WithId(draft, id)], q);
    assert forall i :: 0 <= i < |ps| ==> r[i] == ps[i] by {
      forall i | 0 <= i < |ps| ensures r[i] == ps[i] {
        assert (ps + [WithId(draft, id)])[i] == ps[i];
      }
    }
  }
}
