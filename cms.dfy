/**
 * The shapes the CMS gives a select field such as a tournament's `status`
 * or a media item's `type`: missing, a plain string, an object with `id` and
 * `value`, or an array of those. The pages read these through `||` chains and
 * `toString()`, which this module spells out case by case.
 */
module Cms {
  import opened Wrappers
  import opened Js

  /** One select option: a plain string, or an `{ id, value }` object. */
  datatype Item = Text(s: string) | Obj(id: Option<string>, value: Option<string>)

  /** A select field: absent, a single option, or an array of options. */
  datatype Field = Absent | One(item: Item) | Many(items: seq<Item>)

  /** What `toString()` gives for a plain object. */
  const ObjectText: string := "[object Object]"

  /** JavaScript truthiness of a field: `undefined` and `""` are falsy, every
      object and every array (even an empty one) is truthy. */
  predicate Truthy(f: Field) {
    match f
    case Absent => false
    case One(Text(s)) => s != ""
    case One(Obj(_, _)) => true
    case Many(_) => true
  }

  /** `f || g` on two select fields. Unlike `||` on CSV cells (`Js.Or`),
      an object or an array is truthy here, whatever it holds. */
  function FieldOr(f: Field, g: Field): (r: Field)
    ensures Truthy(r) <==> Truthy(f) || Truthy(g)
    ensures Truthy(f) ==> r == f
  {
    if Truthy(f) then f else g
  }

  /** `(s?.id || "").toString()`. */
  function IdText(i: Item): (r: string)
    ensures i.Text? ==> r == ""
    ensures i.Obj? && Present(i.id) ==> r == i.id.value
    ensures i.Obj? && !Present(i.id) ==> r == ""
  {
    match i
    case Text(_) => ""
    case Obj(id, _) => if Present(id) then id.value else ""
  }

  /** `(s?.value || s || "").toString()`. */
  function ValueText(i: Item): (r: string)
    ensures i.Text? ==> r == i.s
    ensures i.Obj? && Present(i.value) ==> r == i.value.value
    ensures i.Obj? && !Present(i.value) ==> r == ObjectText
  {
    match i
    case Text(s) => s
    case Obj(_, value) => if Present(value) then value.value else ObjectText
  }

  /** `(s?.id || s || "").toString()`. */
  function IdOrSelfText(i: Item): (r: string)
    ensures i.Text? ==> r == i.s
    ensures i.Obj? && Present(i.id) ==> r == i.id.value
    ensures i.Obj? && !Present(i.id) ==> r == ObjectText
  {
    match i
    case Text(s) => s
    case Obj(id, _) => if Present(id) then id.value else ObjectText
  }

  /** `(s?.id || s?.value || s || "").toString()`. */
  function IdValueOrSelfText(i: Item): (r: string)
    ensures i.Text? ==> r == i.s
    ensures i.Obj? && Present(i.id) ==> r == i.id.value
    ensures i.Obj? && !Present(i.id) && Present(i.value) ==> r == i.value.value
    ensures i.Obj? && !Present(i.id) && !Present(i.value) ==> r == ObjectText
  {
    match i
    case Text(s) => s
    case Obj(id, value) =>
      if Present(id) then id.value else if Present(value) then value.value else ObjectText
  }

  /** The `checkMatch(s, target)` used on the entry, schedule, results,
      about and spectate pages: the lower-cased id, or the lower-cased value
      (the string itself for a plain string), equals `target`. */
  predicate MatchesIdOrValue(i: Item, target: string) {
    Lower(IdText(i)) == target || Lower(ValueText(i)) == target
  }

  /** A predicate on options lifted to a field the way the pages do it:
      `Array.isArray(f) ? f.some(p) : p(f)`. Every predicate the pages use
      is false on `undefined`, so an absent field never holds. */
  predicate Holds(f: Field, p: Item -> bool) {
    match f
    case Absent => false
    case One(i) => p(i)
    case Many(items) => exists k :: 0 <= k < |items| && p(items[k])
  }

  /** The status test shared by several pages: does `f` say `target`? */
  predicate Says(f: Field, target: string) {
    Holds(f, i => MatchesIdOrValue(i, target))
  }

  /** `checkMatch` on `undefined` (an absent status): both texts are empty,
      so no non-empty target matches. */
  lemma {:induction false} AbsentSaysNothing(target: string)
    requires target != ""
    ensures !Says(Absent, target)
    ensures !MatchesIdOrValue(Text(""), target)
  {
    assert Lower("") == "";
  }

  /** Matching ignores ASCII case of the option's text. */
  lemma {:induction false} MatchesIgnoresCase(s: string, target: string)
    requires MatchesIdOrValue(Text(s), target)
    ensures MatchesIdOrValue(Text(Lower(s)), target)
  {
    LowerIdempotent(s);
  }

  lemma {:induction false} LowerIdempotent(s: string)
    ensures Lower(Lower(s)) == Lower(s)
  {
    assert forall i :: 0 <= i < |s| ==> LowerChar(LowerChar(s[i])) == LowerChar(s[i]);
  }

  /** The option a media page looks at: the first element of an array (none
      for an empty array), or the single option. */
  function Target(f: Field): (r: Option<Item>)
    ensures f.Many? && |f.items| > 0 ==> r == Some(f.items[0])
    ensures f.One? ==> r == Some(f.item)
    ensures r.None? <==> f.Absent? || (f.Many? && |f.items| == 0)
  {
    match f
    case Absent => None
    case One(i) => Some(i)
    case Many(items) => if |items| > 0 then Some(items[0]) else None
  }

  /** `typeof target === 'string' ? target : target?.id`. */
  function TargetId(t: Option<Item>): (r: Option<string>)
    ensures t.Some? && t.value.Text? ==> r == Some(t.value.s)
    ensures t.Some? && t.value.Obj? ==> r == t.value.id
    ensures t.None? ==> r.None?
  {
    match t
    case None => None
    case Some(Text(s)) => Some(s)
    case Some(Obj(id, _)) => id
  }

  /** `typeof target === 'string' ? target : target?.value`. */
  function TargetValue(t: Option<Item>): (r: Option<string>)
    ensures t.Some? && t.value.Text? ==> r == Some(t.value.s)
    ensures t.Some? && t.value.Obj? ==> r == t.value.value
    ensures t.None? ==> r.None?
  {
    match t
    case None => None
    case Some(Text(s)) => Some(s)
    case Some(Obj(_, value)) => value
  }
}
