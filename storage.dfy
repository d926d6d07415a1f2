/**
 * A stand-in for the embedded SQL engine, as far as the repositories depend
 * on it: how a bound parameter is written, how `=` compares a column with a
 * parameter, what INSERT, UPDATE and DELETE keyed by `_id` do to a table held
 * as a map from the integer primary key to the other columns, the order in
 * which a SELECT returns rows, and what a JavaScript loop over those rows
 * collects.
 */
module Storage {
  import opened Js
  import opened Decimal

  // ---- Parameters as the repositories bind them ----

  /** `x ? x.toString() : null` on an optional identifier. */
  function BindId(x: Option<int>): Option<string>
  {
    if TruthyInt(x) then Some(ToDecimal(x.value)) else None
  }

  /** `s ? s : null` on an optional string. */
  function BindText(s: Option<string>): Option<string>
  {
    if TruthyText(s) then s else None
  }

  /** `n ? n.toString() : null` on an optional number; the column keeps the number itself. */
  function BindNumber(n: Option<JsNumber>): Option<JsNumber>
  {
    if TruthyNumber(n) then n else None
  }

  /**
   * `BigInt(v)` on a column value read back: `None` stands for the
   * `TypeError` that `BigInt(null)` throws and for the `SyntaxError` of text
   * that is not an integer.
   */
  function JsBigInt(v: Option<string>): Option<int>
  {
    if v.None? then None else ParseBigInt(v.value)
  }

  /** A falsy identifier is bound as NULL; a truthy one as text that `BigInt` turns back into the same value. */
  lemma BindIdRoundTrip(x: Option<int>)
    ensures BindId(x).None? <==> !TruthyInt(x)
    ensures TruthyInt(x) ==> JsBigInt(BindId(x)) == x
  {
    if TruthyInt(x) {
      ParseToDecimal(x.value);
    }
  }

  // ---- Comparisons in WHERE clauses ----

  /** `_id = $param` against the INTEGER PRIMARY KEY: NULL matches nothing, text matches the key it reads as. */
  predicate KeyEquals(key: int, param: Option<string>)
  {
    param.Some? && ParseSigned(param.value) == Some(key)
  }

  /**
   * `column = $param` on an INTEGER-affinity column: NULL on either side
   * never matches; text that reads as an integer compares as that integer,
   * other text compares as text.
   */
  predicate IntegerEquals(stored: Option<string>, param: Option<string>)
  {
    && stored.Some? && param.Some?
    && (stored == param || (ParseSigned(stored.value).Some? && ParseSigned(stored.value) == ParseSigned(param.value)))
  }

  /** `WHERE _id = $_id` with `x ? x.toString() : null` bound selects the row keyed `x`, and nothing when `x` is falsy. */
  lemma KeyEqualsBound(key: int, x: Option<int>)
    ensures KeyEquals(key, BindId(x)) <==> TruthyInt(x) && x.value == key
  {
    if TruthyInt(x) {
      ParseToDecimal(x.value);
    }
  }

  /**
   * A column written with `x ? x.toString() : null` matches the parameter
   * `c.toString()` exactly when `x` is truthy and equal to `c`; a falsy `x`
   * (so also `0n`) left NULL, which no parameter matches.
   */
  lemma IntegerEqualsBound(x: Option<int>, c: int)
    ensures IntegerEquals(BindId(x), Some(ToDecimal(c))) <==> TruthyInt(x) && x.value == c
  {
    ParseToDecimal(c);
    if TruthyInt(x) {
      ParseToDecimal(x.value);
      ToDecimalInjective(x.value, c);
    }
  }

  /**
   * A column that `column = $param` matches with `c.toString()` bound holds
   * text that `BigInt` reads back as `c`.
   */
  lemma IntegerEqualsReadsBack(stored: Option<string>, c: int)
    requires IntegerEquals(stored, Some(ToDecimal(c)))
    ensures JsBigInt(stored) == Some(c)
  {
    ParseToDecimal(c);
  }

  // ---- Statements ----

  /**
   * `INSERT` of one row whose `_id` is bound as text: the text becomes the
   * integer key; text that is not an integer, or a key already present
   * (a primary-key violation), makes the statement throw, shown as `None`.
   */
  function Insert<R>(t: map<int, R>, key: string, row: R): Option<map<int, R>>
  {
    match ParseSigned(key)
    case None => None
    case Some(k) => if k in t then None else Some(t[k := row])
  }

  /** Inserting under the text form of `k` adds exactly the row keyed `k`, unless that key is taken. */
  lemma InsertAtKey<R>(t: map<int, R>, k: int, row: R)
    ensures Insert(t, ToDecimal(k), row) == if k in t then None else Some(t[k := row])
  {
    ParseToDecimal(k);
  }

  /** The keys of the rows `WHERE _id = $param` selects. */
  function Matching<R>(t: map<int, R>, param: Option<string>): set<int>
  {
    set k | k in t && KeyEquals(k, param)
  }

  /** Keyed by a bound identifier, at most one row is affected: the one keyed `x`, when `x` is truthy and present. */
  lemma MatchingBound<R>(t: map<int, R>, x: Option<int>)
    ensures Matching(t, BindId(x)) == if TruthyInt(x) && x.value in t then {x.value} else {}
  {
    forall k | k in t
      ensures KeyEquals(k, BindId(x)) <==> TruthyInt(x) && x.value == k
    {
      KeyEqualsBound(k, x);
    }
  }

  /** `UPDATE … WHERE _id = $param`: every matching row becomes `f` of itself; no row is added or removed. */
  function UpdateWhere<R>(t: map<int, R>, param: Option<string>, f: R -> R): map<int, R>
  {
    map k | k in t :: if KeyEquals(k, param) then f(t[k]) else t[k]
  }

  /** `DELETE … WHERE _id = $param`: the matching rows go, the others stay as they were. */
  function DeleteWhere<R>(t: map<int, R>, param: Option<string>): map<int, R>
  {
    t - Matching(t, param)
  }

  /** An UPDATE keyed by a bound identifier changes the row keyed `x` and nothing else, and nothing when `x` is falsy or absent. */
  lemma UpdateWhereBound<R>(t: map<int, R>, x: Option<int>, f: R -> R)
    ensures UpdateWhere(t, BindId(x), f) == if TruthyInt(x) && x.value in t then t[x.value := f(t[x.value])] else t
  {
    var r := UpdateWhere(t, BindId(x), f);
    var expected := if TruthyInt(x) && x.value in t then t[x.value := f(t[x.value])] else t;
    forall k | k in t
      ensures r[k] == expected[k]
    {
      KeyEqualsBound(k, x);
    }
  }

  /** A DELETE keyed by a bound identifier removes the row keyed `x`, and nothing when `x` is falsy or absent. */
  lemma DeleteWhereBound<R>(t: map<int, R>, x: Option<int>)
    ensures DeleteWhere(t, BindId(x)) == if TruthyInt(x) && x.value in t then t - {x.value} else t
  {
    MatchingBound(t, x);
  }

  // ---- What a loop over the returned rows collects ----

  /** Each of the first `n` rows listed in `keys` is in the table and converts without throwing. */
  predicate ConvertsUpTo<R, T>(t: map<int, R>, keys: seq<int>, n: nat, convert: (int, R) -> Option<T>)
  {
    n <= |keys| && forall i :: 0 <= i < n ==> keys[i] in t && convert(keys[i], t[keys[i]]).Some?
  }

  /** The values `for (const row of rows) out.push(convert(row))` has appended after the first `n` rows. */
  function Collect<R, T>(t: map<int, R>, keys: seq<int>, n: nat, convert: (int, R) -> Option<T>): (r: seq<T>)
    requires ConvertsUpTo(t, keys, n, convert)
    ensures |r| == n
    ensures forall i :: 0 <= i < n ==> Some(r[i]) == convert(keys[i], t[keys[i]])
  {
    if n == 0 then [] else Collect(t, keys, n - 1, convert) + [convert(keys[n - 1], t[keys[n - 1]]).value]
  }

  /** Every selected key whose row converts contributes its conversion to the collected rows. */
  lemma CollectContains<R, T>(t: map<int, R>, keys: seq<int>, convert: (int, R) -> Option<T>, k: int)
    requires ConvertsUpTo(t, keys, |keys|, convert)
    requires k in keys
    ensures k in t && convert(k, t[k]).Some?
    ensures convert(k, t[k]).value in Collect(t, keys, |keys|, convert)
  {
    var i :| 0 <= i < |keys| && keys[i] == k;
    assert Some(Collect(t, keys, |keys|, convert)[i]) == convert(k, t[k]);
  }

  /**
   * Where a loop over the rows from position `from` on stops: at the first
   * row whose conversion throws, or at the end.
   */
  function Convertible<R, T>(t: map<int, R>, keys: seq<int>, from: nat, convert: (int, R) -> Option<T>): (n: nat)
    requires from <= |keys|
    requires forall i :: 0 <= i < |keys| ==> keys[i] in t
    ensures from <= n <= |keys|
    ensures forall i :: from <= i < n ==> convert(keys[i], t[keys[i]]).Some?
    ensures n < |keys| ==> convert(keys[n], t[keys[n]]).None?
    decreases |keys| - from
  {
    if from == |keys| || convert(keys[from], t[keys[from]]).None? then from
    else Convertible(t, keys, from + 1, convert)
  }

  /**
   * The loop of a fetch that converts each selected row and pushes the
   * result onto the caller's array, stopping at the first row whose
   * conversion throws: `out` gains the converted prefix, and `ok` says
   * whether no row threw.
   */
  method PushConverted<R, T>(t: map<int, R>, keys: seq<int>, convert: (int, R) -> Option<T>, out: JsArray<T>) returns (ok: bool)
    requires forall i :: 0 <= i < |keys| ==> keys[i] in t
    modifies out
    ensures out.elems == old(out.elems) + Collect(t, keys, Convertible(t, keys, 0, convert), convert)
    ensures ok <==> Convertible(t, keys, 0, convert) == |keys|
  {
    ghost var n := Convertible(t, keys, 0, convert);
    var i := 0;
    while i < |keys|
      invariant 0 <= i <= n
      invariant out.elems == old(out.elems) + Collect(t, keys, i, convert)
    {
      var converted := convert(keys[i], t[keys[i]]);
      if converted.None? {
        return false;
      }
      out.Push(converted.value);
      i := i + 1;
    }
    return true;
  }
}

/** The order in which a SELECT returns the rows of a table scan. */
module ScanOrder {
  /** `m` is the least element of `s`. */
  predicate IsLeast(m: int, s: set<int>)
  {
    m in s && forall x :: x in s ==> m <= x
  }

  lemma {:induction false} LeastExists(s: set<int>)
    requires s != {}
    ensures exists m :: IsLeast(m, s)
  {
    if forall x :: x !in s {
      assert false;
    }
    var y :| y in s;
    var rest := s - {y};
    if rest == {} {
      assert IsLeast(y, s) by {
        forall x | x in s
          ensures y <= x
        {
          assert x !in rest;
        }
      }
    } else {
      LeastExists(rest);
      var m :| IsLeast(m, rest);
      var least := if y < m then y else m;
      assert IsLeast(least, s) by {
        forall x | x in s
          ensures least <= x
        {
          if x != y {
            assert x in rest;
          }
        }
      }
    }
  }

  /** The least key of a non-empty set of keys. */
  function Least(s: set<int>): (m: int)
    requires s != {}
    ensures IsLeast(m, s)
  {
    LeastExists(s);
    var m :| IsLeast(m, s);
    m
  }

  /**
   * The rows of a table scan come in ascending order of the integer primary
   * key: every selected key once, each smaller than the next.
   */
  function SortedKeys(s: set<int>): (r: seq<int>)
    ensures |r| == |s|
    ensures forall k :: k in r <==> k in s
    ensures forall i, j :: 0 <= i < j < |r| ==> r[i] < r[j]
    decreases |s|
  {
    if s == {} then []
    else
      var m := Least(s);
      [m] + SortedKeys(s - {m})
  }
}
