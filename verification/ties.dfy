/** `EntityPreferenceInstance`, the entry of a preference list with ties in
    the Student/Project Allocation with Ties variant: a single id, or a tie
    (a tuple of single ids ranked equally). Ties do not nest. */
module Ties {
  import opened Wrappers
  import opened Lists

  /** An entry: `values` is a string, or a tuple of single entries, which
      are represented here by their ids. */
  datatype Entity = Single(id: string) | Tie(members: seq<string>)

  /** A Python value an entry can be compared with: another entry, a
      string, a tuple, or anything else. */
  datatype Value = VEntity(e: Entity) | VStr(s: string) | VTuple(items: seq<Value>) | VOther

  /** The constructor's argument, a string or a tuple of strings. */
  datatype Raw = RawStr(s: string) | RawTuple(ids: seq<string>)

  /** The constructor: a tuple becomes a tie whose members are wrapped
      singly, a string a single entry. */
  function FromRaw(v: Raw): (e: Entity)
    ensures e.Tie? <==> v.RawTuple?
    ensures v.RawStr? ==> e == Single(v.s)
    ensures v.RawTuple? ==> Iter(e) == seq(|v.ids|, i requires 0 <= i < |v.ids| => VEntity(Single(v.ids[i])))
  {
    match v
    case RawStr(s) => Single(s)
    case RawTuple(ids) => Tie(ids)
  }

  /** `isTie`. */
  predicate IsTie(e: Entity) {
    e.Tie?
  }

  /** `__eq__`: `self.values == other` for an entry, a string or a tuple,
      compared the Python way (a tuple element by element, each member of
      a tie with its own `__eq__`); anything else is unequal. */
  function Eq(e: Entity, o: Value): (r: bool)
    ensures o.VOther? ==> !r
    ensures e.Single? && o.VStr? ==> (r <==> o.s == e.id)
    ensures e.Tie? && o.VStr? ==> !r
    ensures e.Single? && o.VTuple? ==> !r
    decreases o
  {
    match o
    case VEntity(f) => e == f
    case VStr(s) => e.Single? && e.id == s
    case VTuple(items) =>
      e.Tie? && |e.members| == |items| &&
      forall i | 0 <= i < |items| :: Eq(Single(e.members[i]), items[i])
    case VOther => false
  }

  /** `__ne__`: `not self == other`. */
  function Ne(e: Entity, o: Value): (r: bool)
    ensures r <==> !Eq(e, o)
  {
    !Eq(e, o)
  }

  /** An entry equals itself, whichever way it is presented. */
  lemma {:induction false} EqReflexive(e: Entity)
    ensures Eq(e, VEntity(e))
    ensures e.Single? ==> Eq(e, VStr(e.id))
    ensures e.Tie? ==> Eq(e, VTuple(seq(|e.members|, i requires 0 <= i < |e.members| => VStr(e.members[i]))))
  {
  }

  /** Comparing two entries is structural equality. */
  lemma EqEntities(e: Entity, f: Entity)
    ensures Eq(e, VEntity(f)) <==> e == f
    ensures Eq(e, VEntity(f)) <==> Eq(f, VEntity(e))
  {
  }

  /** `t` occurs in `s` starting at position `i`. */
  predicate OccursAt(t: string, s: string, i: nat) {
    i + |t| <= |s| && s[i..i + |t|] == t
  }

  /** Python's `t in s` on strings: `t` occurs somewhere in `s`. */
  function IsSubstring(t: string, s: string): (r: bool)
    ensures r <==> exists i: nat :: OccursAt(t, s, i)
    decreases |s|
  {
    if t <= s then
      assert OccursAt(t, s, 0);
      true
    else if |s| == 0 then false
    else
      var r := IsSubstring(t, s[1..]);
      assert forall i: nat | OccursAt(t, s[1..], i) :: OccursAt(t, s, i + 1);
      assert forall i: nat | OccursAt(t, s, i) && i > 0 :: OccursAt(t, s[1..], i - 1);
      r
  }

  /** `__contains__`: `item in self.values`. On a single entry this is
      substring search in the id string (a non-string item is a TypeError);
      on a tie it asks each member whether it equals the item. */
  function Contains(e: Entity, item: Value): (r: Result<bool>)
    ensures e.Tie? ==> r == Ok(exists i | 0 <= i < |e.members| :: Eq(Single(e.members[i]), item))
    ensures e.Single? ==> (r.Ok? <==> item.VStr?)
    ensures e.Single? && item.VStr? ==> r == Ok(IsSubstring(item.s, e.id))
  {
    match e
    case Single(id) => if item.VStr? then Ok(IsSubstring(item.s, id)) else Err(TypeError)
    case Tie(ms) => Ok(exists i | 0 <= i < |ms| :: Eq(Single(ms[i]), item))
  }

  /** An equal string is contained, but containment is weaker than
      equality on single entries: a longer id contains a shorter one. */
  lemma EqImpliesContains(e: Entity, x: string)
    requires e.Single?
    ensures Eq(e, VStr(x)) ==> Contains(e, VStr(x)) == Ok(true)
  {
    if Eq(e, VStr(x)) {
      assert OccursAt(x, e.id, 0);
    }
  }

  /** "p1" in EntityPreferenceInstance("p12"). */
  lemma ContainsIsSubstring()
    ensures Contains(Single("p12"), VStr("p1")) == Ok(true)
    ensures !Eq(Single("p12"), VStr("p1"))
  {
    assert OccursAt("p1", "p12", 0);
  }

  /** `__iter__`: the members of a tie (each a single entry), or the id of
      a single entry once. */
  function Iter(e: Entity): (r: seq<Value>)
    ensures e.Single? ==> r == [VStr(e.id)]
    ensures e.Tie? ==> |r| == |e.members| && forall i | 0 <= i < |r| :: r[i] == VEntity(Single(e.members[i]))
  {
    match e
    case Single(id) => [VStr(id)]
    case Tie(ms) => seq(|ms|, i requires 0 <= i < |ms| => VEntity(Single(ms[i])))
  }

  /** On a tie, `in` asks exactly the values iteration yields. */
  lemma ContainsIter(e: Entity, item: Value)
    requires e.Tie?
    ensures Contains(e, item) == Ok(exists v | v in Iter(e) :: v.VEntity? && Eq(v.e, item))
  {
    var it := Iter(e);
    if exists i | 0 <= i < |e.members| :: Eq(Single(e.members[i]), item) {
      var i :| 0 <= i < |e.members| && Eq(Single(e.members[i]), item);
      assert it[i] in it;
    }
    if exists v | v in it :: v.VEntity? && Eq(v.e, item) {
      var v :| v in it && v.VEntity? && Eq(v.e, item);
      var i :| 0 <= i < |it| && it[i] == v;
    }
  }

  /** The members of a tie that differ from `value`, order kept. */
  function Keep(ms: seq<string>, value: Value): (r: seq<string>)
    ensures |r| <= |ms|
    ensures forall m :: m in r <==> m in ms && Ne(Single(m), value)
  {
    if |ms| == 0 then []
    else if Ne(Single(ms[0]), value) then [ms[0]] + Keep(ms[1..], value)
    else Keep(ms[1..], value)
  }

  /** `_remove_from_tied`: drop every member equal to the value; a single
      entry raises ValueError. */
  function RemoveFromTied(e: Entity, value: Value): (r: Result<Entity>)
    ensures r.Ok? <==> e.Tie?
    ensures r.Ok? ==> r.value.Tie? && forall m :: m in r.value.members <==> m in e.members && !Eq(Single(m), value)
  {
    match e
    case Single(_) => Err(ValueError)
    case Tie(ms) => Ok(Tie(Keep(ms, value)))
  }

  /** Removing an id is `Without` on the members: every occurrence goes,
      the others keep their order. */
  lemma {:induction false} RemoveIdIsWithout(ms: seq<string>, x: string)
    ensures RemoveFromTied(Tie(ms), VStr(x)) == Ok(Tie(Without(ms, x)))
    ensures Contains(Tie(Without(ms, x)), VStr(x)) == Ok(false)
  {
    KeepIsWithout(ms, x);
  }

  lemma {:induction false} KeepIsWithout(ms: seq<string>, x: string)
    ensures Keep(ms, VStr(x)) == Without(ms, x)
  {
    if |ms| > 0 {
      KeepIsWithout(ms[1..], x);
    }
  }

  /** The ids an entry stands for, in order: what `for x in entry` visits,
      with each yielded member read back as its id. */
  function Ids(e: Entity): (r: seq<string>)
    ensures |r| == |Iter(e)|
    ensures forall i | 0 <= i < |r| :: Iter(e)[i] == (if e.Single? then VStr(r[i]) else VEntity(Single(r[i])))
  {
    match e
    case Single(id) => [id]
    case Tie(ms) => ms
  }
}
