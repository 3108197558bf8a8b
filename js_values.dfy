/** The few JavaScript value rules the API layer depends on: optional
    fields, the truthiness of strings and numbers, and the two fallback
    operators `||` (skips every falsy value) and `??` (skips only absent
    values). Each operator chain of the source is also given a reference
    reading as "the first acceptable candidate of an ordered list". */
module JsValues {

  /** An optional field; `None` stands for both `undefined` and `null`. */
  datatype Option<+T> = None | Some(value: T)

  /** A string is truthy when it is present and not empty. */
  predicate TruthyString(o: Option<string>) {
    o.Some? && o.value != ""
  }

  /** A number is truthy when it is present and not zero (NaN is not modelled). */
  predicate TruthyNumber(o: Option<int>) {
    o.Some? && o.value != 0
  }

  /** JavaScript `a || b` on optional strings. */
  function Or(a: Option<string>, b: Option<string>): (r: Option<string>)
    ensures TruthyString(r) <==> TruthyString(a) || TruthyString(b)
    ensures r == a || r == b
  {
    if TruthyString(a) then a else b
  }

  /** JavaScript `a ?? b` on optional strings. */
  function Coalesce(a: Option<string>, b: Option<string>): (r: Option<string>)
    ensures r.Some? <==> a.Some? || b.Some?
    ensures r == a || r == b
  {
    if a.Some? then a else b
  }

  /** Reference reading of `c0 || c1 || ... || fallback`: the first truthy
      candidate, or `fallback` when none is truthy. */
  function FirstTruthy(candidates: seq<Option<string>>, fallback: string): (r: string)
    ensures r == fallback || exists i :: 0 <= i < |candidates| && TruthyString(candidates[i]) && r == candidates[i].value
    ensures fallback != "" ==> r != ""
  {
    if candidates == [] then fallback
    else if TruthyString(candidates[0]) then candidates[0].value
    else
      var r := FirstTruthy(candidates[1..], fallback);
      assert r != fallback ==> exists i :: 1 <= i < |candidates| && TruthyString(candidates[i]) && r == candidates[i].value by {
        if r != fallback {
          var j :| 0 <= j < |candidates[1..]| && TruthyString(candidates[1..][j]) && r == candidates[1..][j].value;
          assert candidates[1..][j] == candidates[j + 1];
        }
      }
      r
  }

  /** Reference reading of `c0 ?? c1 ?? ... ?? fallback`: the first present
      candidate, or `fallback` when every candidate is absent. */
  function FirstPresent(candidates: seq<Option<string>>, fallback: string): (r: string)
    ensures r == fallback || exists i :: 0 <= i < |candidates| && candidates[i].Some? && r == candidates[i].value
  {
    if candidates == [] then fallback
    else if candidates[0].Some? then candidates[0].value
    else
      var r := FirstPresent(candidates[1..], fallback);
      assert r != fallback ==> exists i :: 1 <= i < |candidates| && candidates[i].Some? && r == candidates[i].value by {
        if r != fallback {
          var j :| 0 <= j < |candidates[1..]| && candidates[1..][j].Some? && r == candidates[1..][j].value;
          assert candidates[1..][j] == candidates[j + 1];
        }
      }
      r
  }

  /** Candidate `i` is the first truthy one. */
  ghost predicate IsFirstTruthy(candidates: seq<Option<string>>, i: int) {
    0 <= i < |candidates| && TruthyString(candidates[i]) &&
    forall j :: 0 <= j < i ==> !TruthyString(candidates[j])
  }

  /** Candidate `i` is the first present one. */
  ghost predicate IsFirstPresent(candidates: seq<Option<string>>, i: int) {
    0 <= i < |candidates| && candidates[i].Some? &&
    forall j :: 0 <= j < i ==> candidates[j].None?
  }

  /** `||` precedence: the first truthy candidate wins, whatever follows it. */
  lemma {:induction false} FirstTruthyPicksFirst(candidates: seq<Option<string>>, fallback: string, i: int)
    requires IsFirstTruthy(candidates, i)
    ensures FirstTruthy(candidates, fallback) == candidates[i].value
  {
    if i > 0 {
      assert !TruthyString(candidates[0]);
      forall j | 0 <= j < i - 1 ensures !TruthyString(candidates[1..][j]) {
        assert candidates[1..][j] == candidates[j + 1];
      }
      FirstTruthyPicksFirst(candidates[1..], fallback, i - 1);
    }
  }

  /** `??` precedence: the first present candidate wins, even when it is the
      empty string. */
  lemma {:induction false} FirstPresentPicksFirst(candidates: seq<Option<string>>, fallback: string, i: int)
    requires IsFirstPresent(candidates, i)
    ensures FirstPresent(candidates, fallback) == candidates[i].value
  {
    if i > 0 {
      assert candidates[0].None?;
      forall j | 0 <= j < i - 1 ensures candidates[1..][j].None? {
        assert candidates[1..][j] == candidates[j + 1];
      }
      FirstPresentPicksFirst(candidates[1..], fallback, i - 1);
    }
  }

  /** The source's four-candidate chain `a || b || c || d || fallback`
      (grouped to the left, as JavaScript does) is the first truthy
      candidate of `[a, b, c, d]`, or the fallback. */
  lemma OrChainIsFirstTruthy(a: Option<string>, b: Option<string>, c: Option<string>, d: Option<string>, fallback: string)
    ensures Or(Or(Or(Or(a, b), c), d), Some(fallback)).Some?
    ensures Or(Or(Or(Or(a, b), c), d), Some(fallback)).value == FirstTruthy([a, b, c, d], fallback)
  {
    assert [a, b, c, d][1..] == [b, c, d];
    assert [b, c, d][1..] == [c, d];
    assert [c, d][1..] == [d];
    assert [d][1..] == [];
    if !TruthyString(a) {
      assert FirstTruthy([a, b, c, d], fallback) == FirstTruthy([b, c, d], fallback);
      if !TruthyString(b) {
        assert FirstTruthy([b, c, d], fallback) == FirstTruthy([c, d], fallback);
        if !TruthyString(c) {
          assert FirstTruthy([c, d], fallback) == FirstTruthy([d], fallback);
          assert FirstTruthy([d], fallback) == if TruthyString(d) then d.value else FirstTruthy([], fallback);
        }
      }
    }
  }

  /** The source's four-candidate chain `a ?? b ?? c ?? d ?? fallback` is
      the first present candidate of `[a, b, c, d]`, or the fallback. */
  lemma CoalesceChainIsFirstPresent(a: Option<string>, b: Option<string>, c: Option<string>, d: Option<string>, fallback: string)
    ensures Coalesce(Coalesce(Coalesce(Coalesce(a, b), c), d), Some(fallback)).Some?
    ensures Coalesce(Coalesce(Coalesce(Coalesce(a, b), c), d), Some(fallback)).value == FirstPresent([a, b, c, d], fallback)
  {
    assert [a, b, c, d][1..] == [b, c, d];
    assert [b, c, d][1..] == [c, d];
    assert [c, d][1..] == [d];
    assert [d][1..] == [];
    if a.None? {
      assert FirstPresent([a, b, c, d], fallback) == FirstPresent([b, c, d], fallback);
      if b.None? {
        assert FirstPresent([b, c, d], fallback) == FirstPresent([c, d], fallback);
        if c.None? {
          assert FirstPresent([c, d], fallback) == FirstPresent([d], fallback);
          assert FirstPresent([d], fallback) == if d.Some? then d.value else FirstPresent([], fallback);
        }
      }
    }
  }
}
