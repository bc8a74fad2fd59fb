/** The arithmetic of the constant-expression language (app.py:264-302):
    binary `+` and `-`, variadic `min` and unary `sort`, over Python ints
    and (exact decimal) floats. */
module Numbers {
  import opened Syntax

  function Pow10(k: nat): (r: nat)
    ensures r >= 1
  {
    if k == 0 then 1 else 10 * Pow10(k - 1)
  }

  function MantOf(v: Value): int
    requires IsNum(v)
  {
    if v.Int? then v.i else v.mant
  }

  function ExpOf(v: Value): int
    requires IsNum(v)
  {
    if v.Int? then 0 else v.exp
  }

  /** m * 10^e as a real, for any integer e. */
  function Val(m: int, e: int): real
    decreases if e < 0 then -e else e
  {
    if e == 0 then m as real
    else if e > 0 then Val(10 * m, e - 1)
    else Val(m, e + 1) / 10.0
  }

  /** The number a numeric value denotes. */
  function NumVal(v: Value): real
    requires IsNum(v)
  {
    Val(MantOf(v), ExpOf(v))
  }

  /** Python's `a < b` on numbers, as a non-strict order. */
  predicate Le(a: Value, b: Value) {
    IsNum(a) && IsNum(b) && NumVal(a) <= NumVal(b)
  }

  /** Every element is numerically at most every later one. */
  predicate Ascending(s: seq<Value>) {
    forall j, k :: 0 <= j < k < |s| ==> Le(s[j], s[k])
  }

  lemma {:induction false} ValShift(m: int, e: int)
    ensures Val(10 * m, e) == Val(m, e + 1)
    decreases if e < 0 then -e else e
  {
    if e < -1 {
      ValShift(m, e + 1);
    }
  }

  lemma {:induction false} ValLinear(x: int, y: int, sign: int, e: int)
    requires sign == 1 || sign == -1
    ensures Val(x + sign * y, e) == Val(x, e) + (sign as real) * Val(y, e)
    decreases if e < 0 then -e else e
  {
    if e > 0 {
      ValLinear(10 * x, 10 * y, sign, e - 1);
      assert 10 * (x + sign * y) == 10 * x + sign * (10 * y);
    } else if e < 0 {
      ValLinear(x, y, sign, e + 1);
    }
  }

  /** The mantissa of v written at the smaller exponent e. */
  function Aligned(v: Value, e: int): int
    requires IsNum(v) && e <= ExpOf(v)
  {
    MantOf(v) * Pow10(ExpOf(v) - e)
  }

  lemma {:induction false} ValScaled(m: int, e: int, k: nat)
    ensures Val(m * Pow10(k), e) == Val(m, e + k)
    decreases k
  {
    if k > 0 {
      calc {
        Val(m * Pow10(k), e);
        { assert m * Pow10(k) == 10 * (m * Pow10(k - 1)); }
        Val(10 * (m * Pow10(k - 1)), e);
        { ValShift(m * Pow10(k - 1), e); }
        Val(m * Pow10(k - 1), e + 1);
        { ValScaled(m, e + 1, k - 1); }
        Val(m, e + k);
      }
    }
  }

  lemma AlignedValue(v: Value, e: int)
    requires IsNum(v) && e <= ExpOf(v)
    ensures Val(Aligned(v, e), e) == NumVal(v)
  {
    ValScaled(MantOf(v), e, ExpOf(v) - e);
  }

  /** Python's `a + b` (sign = 1) and `a - b` (sign = -1): int with int
      stays int, anything with a float becomes a float. */
  function Combine(a: Value, b: Value, sign: int): (r: Value)
    requires IsNum(a) && IsNum(b) && (sign == 1 || sign == -1)
    ensures IsNum(r)
    ensures r.Int? <==> a.Int? && b.Int?
    ensures NumVal(r) == NumVal(a) + (sign as real) * NumVal(b)
  {
    if a.Int? && b.Int? then
      ValLinear(a.i, b.i, sign, 0);
      Int(a.i + sign * b.i)
    else
      var e := if ExpOf(a) <= ExpOf(b) then ExpOf(a) else ExpOf(b);
      AlignedSum(a, b, sign, e);
      Float(Aligned(a, e) + sign * Aligned(b, e), e)
  }

  /** Written at a common exponent, the mantissas add as the numbers do. */
  lemma AlignedSum(a: Value, b: Value, sign: int, e: int)
    requires IsNum(a) && IsNum(b) && (sign == 1 || sign == -1)
    requires e <= ExpOf(a) && e <= ExpOf(b)
    ensures Val(Aligned(a, e) + sign * Aligned(b, e), e) == NumVal(a) + (sign as real) * NumVal(b)
  {
    var x, y := Aligned(a, e), Aligned(b, e);
    AlignedValue(a, e);
    AlignedValue(b, e);
    ValLinear(x, y, sign, e);
    assert Val(x, e) == NumVal(a) && Val(y, e) == NumVal(b);
  }

  /** The position `min(args)` returns: the first of the smallest. */
  function MinIndex(args: seq<Value>): (k: nat)
    requires |args| >= 1 && AllNum(args)
    ensures k < |args|
    ensures forall j :: 0 <= j < |args| ==> NumVal(args[k]) <= NumVal(args[j])
    ensures forall j :: 0 <= j < k ==> NumVal(args[j]) > NumVal(args[k])
  {
    if |args| == 1 then 0
    else
      var m := MinIndex(args[..|args| - 1]);
      if NumVal(args[|args| - 1]) < NumVal(args[m]) then |args| - 1 else m
  }

  /** Inserts x before the first element not smaller than it. */
  function Insert(x: Value, s: seq<Value>): (r: seq<Value>)
    requires IsNum(x) && AllNum(s)
    ensures AllNum(r)
    ensures multiset(r) == multiset(s) + multiset{x}
    ensures Ascending(s) ==> Ascending(r)
  {
    if s == [] || NumVal(x) <= NumVal(s[0]) then
      InsertFront(x, s);
      [x] + s
    else
      var t := Insert(x, s[1..]);
      InsertLater(x, s, t);
      [s[0]] + t
  }

  lemma InsertFront(x: Value, s: seq<Value>)
    requires IsNum(x) && AllNum(s) && (s == [] || NumVal(x) <= NumVal(s[0]))
    ensures AllNum([x] + s)
    ensures Ascending(s) ==> Ascending([x] + s)
  {
    var r := [x] + s;
    assert forall k :: 1 <= k < |r| ==> r[k] == s[k - 1];
  }

  lemma InsertLater(x: Value, s: seq<Value>, t: seq<Value>)
    requires IsNum(x) && AllNum(s) && s != [] && NumVal(s[0]) < NumVal(x)
    requires AllNum(t) && multiset(t) == multiset(s[1..]) + multiset{x}
    requires Ascending(s[1..]) ==> Ascending(t)
    ensures AllNum([s[0]] + t)
    ensures multiset([s[0]] + t) == multiset(s) + multiset{x}
    ensures Ascending(s) ==> Ascending([s[0]] + t)
  {
    var r := [s[0]] + t;
    assert s == [s[0]] + s[1..];
    assert forall k :: 1 <= k < |r| ==> r[k] == t[k - 1];
    if Ascending(s) {
      forall k | 0 <= k < |t|
        ensures Le(s[0], t[k])
      {
        assert t[k] in multiset(t);
        if t[k] != x {
          assert t[k] in multiset(s[1..]);
          var i :| 0 <= i < |s[1..]| && s[1..][i] == t[k];
          assert s[i + 1] == t[k];
        }
      }
    }
  }

  /** `sorted(s)` on numbers: a stable insertion sort. */
  function SortNums(s: seq<Value>): (r: seq<Value>)
    requires AllNum(s)
    ensures AllNum(r)
    ensures multiset(r) == multiset(s)
    ensures Ascending(r)
  {
    if s == [] then []
    else
      assert s == [s[0]] + s[1..];
      Insert(s[0], SortNums(s[1..]))
  }

  // ----- the sort is stable -----

  predicate HasVal(v: Value, q: real) {
    IsNum(v) && NumVal(v) == q
  }

  /** The elements of s whose value is q, in the order of s. */
  function WithVal(s: seq<Value>, q: real): seq<Value> {
    if s == [] then [] else (if HasVal(s[0], q) then [s[0]] else []) + WithVal(s[1..], q)
  }

  lemma WithValCons(x: Value, s: seq<Value>, q: real)
    ensures WithVal([x] + s, q) == (if HasVal(x, q) then [x] else []) + WithVal(s, q)
  {
    assert ([x] + s)[1..] == s;
  }

  /** The new element goes before every element of equal value, and the
      others keep their order. */
  lemma {:induction false} InsertStable(x: Value, s: seq<Value>, q: real)
    requires IsNum(x) && AllNum(s)
    ensures WithVal(Insert(x, s), q) == (if HasVal(x, q) then [x] else []) + WithVal(s, q)
    decreases |s|
  {
    if s == [] || NumVal(x) <= NumVal(s[0]) {
      InsertFirst(x, s);
      WithValCons(x, s, q);
    } else {
      InsertSkips(x, s);
      InsertStable(x, s[1..], q);
      PassOver(s[0], x, Insert(x, s[1..]), s[1..], q);
    }
  }

  /** An element of another value than x, put in front of both sides,
      does not disturb where x stands among the elements of value q. */
  lemma PassOver(a: Value, x: Value, t: seq<Value>, rest: seq<Value>, q: real)
    requires IsNum(a) && IsNum(x) && NumVal(a) < NumVal(x)
    requires WithVal(t, q) == (if HasVal(x, q) then [x] else []) + WithVal(rest, q)
    ensures WithVal([a] + t, q) == (if HasVal(x, q) then [x] else []) + WithVal([a] + rest, q)
  {
    WithValCons(a, t, q);
    WithValCons(a, rest, q);
  }

  lemma InsertFirst(x: Value, s: seq<Value>)
    requires IsNum(x) && AllNum(s) && (s == [] || NumVal(x) <= NumVal(s[0]))
    ensures Insert(x, s) == [x] + s
  {
  }

  lemma InsertSkips(x: Value, s: seq<Value>)
    requires IsNum(x) && AllNum(s) && s != [] && NumVal(s[0]) < NumVal(x)
    ensures AllNum(s[1..]) && [s[0]] + s[1..] == s
    ensures Insert(x, s) == [s[0]] + Insert(x, s[1..])
  {
  }

  /** `sorted` is stable: numbers of equal value, such as `1` and `1.0`,
      come out in the order they went in. */
  lemma {:induction false} SortStable(s: seq<Value>, q: real)
    requires AllNum(s)
    ensures WithVal(SortNums(s), q) == WithVal(s, q)
    decreases |s|
  {
    if s != [] {
      SortStable(s[1..], q);
      InsertStable(s[0], SortNums(s[1..]), q);
      WithValCons(s[0], s[1..], q);
      assert [s[0]] + s[1..] == s;
    }
  }

  /** `sort` keeps the order of elements of equal value. */
  lemma SortItemsStable(items: seq<Value>, q: real)
    requires Sortable(items)
    ensures WithVal(SortItems(items), q) == WithVal(items, q)
  {
    if |items| > 1 {
      SortStable(items, q);
    }
  }

  /** `sorted` succeeds exactly when the elements it compares are
      comparable; with two or more elements every element is compared,
      and only numbers compare with each other here. */
  predicate Sortable(items: seq<Value>) {
    |items| <= 1 || AllNum(items)
  }

  function SortItems(items: seq<Value>): (r: seq<Value>)
    requires Sortable(items)
    ensures multiset(r) == multiset(items)
    ensures Ascending(r)
  {
    if |items| <= 1 then items else SortNums(items)
  }

  /** `+` and `-` of app.py:267-279 once both operands are evaluated. */
  function ApplyBinary(op: Op, a: Value, b: Value, line: nat, col: nat): (r: Result<Value>)
    requires op != MinOp
    ensures r.Ok? <==> IsNum(a) && IsNum(b)
    ensures r.Err? ==> r.error == NotNumeric(op, line, col)
    ensures r.Ok? && op == AddOp ==> IsNum(r.value) && NumVal(r.value) == NumVal(a) + NumVal(b)
    ensures r.Ok? && op == SubOp ==> IsNum(r.value) && NumVal(r.value) == NumVal(a) - NumVal(b)
    ensures r.Ok? ==> (r.value.Int? <==> a.Int? && b.Int?)
  {
    if IsNum(a) && IsNum(b) then
      Ok(Combine(a, b, if op == AddOp then 1 else -1))
    else
      Err(NotNumeric(op, line, col))
  }

  /** `min` of app.py:286-288 once its arguments are evaluated. */
  function ApplyMin(args: seq<Value>, line: nat, col: nat): (r: Result<Value>)
    requires |args| >= 2
    ensures r.Ok? <==> AllNum(args)
    ensures r.Err? ==> r.error == NotNumeric(MinOp, line, col)
    ensures r.Ok? ==> exists k :: (0 <= k < |args| && r.value == args[k] &&
      (forall j :: 0 <= j < |args| ==> NumVal(args[k]) <= NumVal(args[j])) &&
      (forall j :: 0 <= j < k ==> NumVal(args[j]) > NumVal(args[k])))
  {
    if AllNum(args) then Ok(args[MinIndex(args)]) else Err(NotNumeric(MinOp, line, col))
  }

  /** `sort` of app.py:293-300 once its argument is evaluated. */
  function ApplySort(v: Value, line: nat, col: nat): (r: Result<Value>)
    ensures r.Ok? <==> v.Arr? && Sortable(v.items)
    ensures !v.Arr? ==> r == Err(NotAnArray(line, col))
    ensures v.Arr? && !Sortable(v.items) ==> r == Err(Uncomparable(line, col))
    ensures r.Ok? ==> r.value.Arr? && multiset(r.value.items) == multiset(v.items)
    ensures r.Ok? ==> Ascending(r.value.items)
  {
    if !v.Arr? then Err(NotAnArray(line, col))
    else if Sortable(v.items) then Ok(Arr(SortItems(v.items)))
    else Err(Uncomparable(line, col))
  }
}
