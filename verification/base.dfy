/** Shared vocabulary: optional values, the JSON values the engine type-checks,
    JavaScript's String.prototype.trim, and ordered iteration over day keys. */
module Base {

  datatype Option<+T> = None | Some(value: T) {
    function GetOr(default: T): T {
      if Some? then value else default
    }
  }

  /** A stored JSON value, as far as the engine inspects it: either a real
      boolean, or any other value together with its JavaScript truthiness. */
  datatype JVal = JBool(b: bool) | JOther(truthy: bool)

  /** `!!v` in JavaScript. */
  function Truthy(v: JVal): bool {
    match v
    case JBool(b) => b
    case JOther(t) => t
  }

  /** The truthiness of every entry of a JSON object. */
  function TruthMap(m: map<string, JVal>): map<string, bool> {
    map k | k in m :: Truthy(m[k])
  }

  /** The ECMAScript WhiteSpace and LineTerminator code points, which `trim` removes. */
  predicate IsJsSpace(c: char) {
    c == ' ' || c == '\t' || c == '\n' || c == '\r' || c == '\U{B}' || c == '\U{C}'
    || c == '\U{A0}' || c == '\U{1680}' || ('\U{2000}' <= c <= '\U{200A}')
    || c == '\U{2028}' || c == '\U{2029}' || c == '\U{202F}' || c == '\U{205F}'
    || c == '\U{3000}' || c == '\U{FEFF}'
  }

  predicate AllSpace(s: string) {
    forall i :: 0 <= i < |s| ==> IsJsSpace(s[i])
  }

  function TrimStart(s: string): (r: string)
    ensures |r| <= |s| && r == s[|s| - |r|..]
    ensures r == [] || !IsJsSpace(r[0])
    ensures AllSpace(s[..|s| - |r|])
    decreases |s|
  {
    if s != [] && IsJsSpace(s[0]) then
      var t := TrimStart(s[1..]);
      assert s[..|s| - |t|] == [s[0]] + s[1..][..|s| - 1 - |t|];
      t
    else s
  }

  function TrimEnd(s: string): (r: string)
    ensures |r| <= |s| && r == s[..|r|]
    ensures r == [] || !IsJsSpace(r[|r| - 1])
    ensures AllSpace(s[|r|..])
    decreases |s|
  {
    if s != [] && IsJsSpace(s[|s| - 1]) then
      var t := TrimEnd(s[..|s| - 1]);
      assert s[..|s| - 1][..|t|] == s[..|t|];
      assert s[|t|..] == s[..|s| - 1][|t|..] + [s[|s| - 1]];
      t
    else s
  }

  /** `s.trim()`: the input without its leading and trailing white space. */
  function Trim(s: string): (r: string)
    ensures r == [] || (!IsJsSpace(r[0]) && !IsJsSpace(r[|r| - 1]))
    ensures r == [] <==> AllSpace(s)
    ensures |r| <= |s|
    ensures s == [] || (!IsJsSpace(s[0]) && !IsJsSpace(s[|s| - 1])) ==> r == s
  {
    TrimFacts(s);
    TrimEnd(TrimStart(s))
  }

  /** `s.trim()` is the middle of `s` between a run of leading and a run of
      trailing white space; with `Trim`'s own ensures, that middle is unique. */
  lemma TrimIsSlice(s: string)
    ensures exists i, j :: 0 <= i <= j <= |s| && Trim(s) == s[i..j] && AllSpace(s[..i]) && AllSpace(s[j..])
  {
    var front := TrimStart(s);
    var i := |s| - |front|;
    var j := i + |Trim(s)|;
    assert front[..|Trim(s)|] == s[i..j];
    assert front[|Trim(s)|..] == s[j..];
  }

  /** What trimming both ends guarantees, argued one end at a time. */
  lemma TrimFacts(s: string)
    ensures var r := TrimEnd(TrimStart(s));
      r == [] || (!IsJsSpace(r[0]) && !IsJsSpace(r[|r| - 1]))
    ensures TrimEnd(TrimStart(s)) == [] <==> AllSpace(s)
    ensures |TrimEnd(TrimStart(s))| <= |s|
    ensures s == [] || (!IsJsSpace(s[0]) && !IsJsSpace(s[|s| - 1])) ==> TrimEnd(TrimStart(s)) == s
  {
    var front := TrimStart(s);
    TrimEnds(front);
    TrimAllSpace(s, front);
    if s != [] && !IsJsSpace(s[0]) && !IsJsSpace(s[|s| - 1]) {
      assert front == s;
    }
  }

  /** Trimming the end of a string that starts with a non-space keeps that start. */
  lemma TrimEnds(front: string)
    requires front == [] || !IsJsSpace(front[0])
    ensures var r := TrimEnd(front);
      (r == [] <==> front == []) && (r == [] || (!IsJsSpace(r[0]) && !IsJsSpace(r[|r| - 1])))
  {
    var r := TrimEnd(front);
    if r != [] {
      assert r[0] == front[0];
    }
  }

  /** Nothing is left after the leading white space exactly when all of it is white space. */
  lemma TrimAllSpace(s: string, front: string)
    requires front == TrimStart(s)
    ensures front == [] <==> AllSpace(s)
  {
    if front == [] {
      assert s[..|s|] == s;
    }
  }

  lemma NonEmpty(s: set<int>)
    requires |s| > 0
    ensures exists y :: y in s
  {
    if forall y :: y !in s {
      assert false;
    }
  }

  /** A non-empty finite set of integers has a least element. */
  lemma MinExists(s: set<int>)
    requires |s| > 0
    ensures exists m :: m in s && forall k :: k in s ==> m <= k
    decreases |s|
  {
    NonEmpty(s);
    var x :| x in s;
    if |s| > 1 {
      var t := s - {x};
      assert |t| == |s| - 1;
      MinExists(t);
      var m :| m in t && forall k :: k in t ==> m <= k;
      var w := if x < m then x else m;
      assert forall k :: k in s ==> k == x || k in t;
      assert w in s && forall k :: k in s ==> w <= k;
    } else {
      assert forall k :: k in s ==> k == x;
      assert forall k :: k in s ==> x <= k;
    }
  }

  function MinOf(s: set<int>): (m: int)
    requires |s| > 0
    ensures m in s && forall k :: k in s ==> m <= k
  {
    MinExists(s);
    var m :| m in s && forall k :: k in s ==> m <= k;
    m
  }

  /** The keys of a date-keyed object in ascending order, which is the order
      `Object.keys(...).sort()` gives `YYYY-MM-DD` strings. */
  function SortedKeys(keys: set<int>): (r: seq<int>)
    ensures |r| == |keys|
    decreases keys
  {
    if |keys| == 0 then []
    else
      var m := MinOf(keys);
      assert |keys - {m}| == |keys| - 1;
      [m] + SortedKeys(keys - {m})
  }

  /** Every sorted key is a key, and the keys come out strictly increasing. */
  lemma {:induction false} SortedKeysOrdered(keys: set<int>)
    ensures forall i :: 0 <= i < |SortedKeys(keys)| ==> SortedKeys(keys)[i] in keys
    ensures forall i, j :: 0 <= i < j < |SortedKeys(keys)| ==> SortedKeys(keys)[i] < SortedKeys(keys)[j]
    decreases keys
  {
    if |keys| != 0 {
      var m := MinOf(keys);
      var rest := SortedKeys(keys - {m});
      SortedKeysOrdered(keys - {m});
      var r := [m] + rest;
      assert SortedKeys(keys) == r;
      assert forall i :: 0 <= i < |rest| ==> rest[i] in keys && m < rest[i];
      assert forall i :: 0 < i < |r| ==> r[i] == rest[i - 1];
    }
  }

  /** Every key is among the sorted keys. */
  lemma {:induction false} SortedKeysComplete(keys: set<int>)
    ensures forall k :: k in keys ==> k in SortedKeys(keys)
    decreases keys
  {
    if |keys| != 0 {
      var m := MinOf(keys);
      SortedKeysComplete(keys - {m});
      assert SortedKeys(keys) == [m] + SortedKeys(keys - {m});
    }
  }
}
