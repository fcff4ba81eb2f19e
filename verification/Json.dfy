/**
  Decoded JSON values, as `encoding/json` hands them to the interceptor, and the plain recursive
  substitution of the Espresso tag that the interceptor's tree rewrite must agree with.
*/
module Json {
  import opened Common

  /** Numbers keep their text (`json.Number`).  Objects are Go maps: unordered, one value a key. */
  datatype Json =
    | Null
    | Bool(b: bool)
    | Num(text: string)
    | Str(s: string)
    | Arr(items: seq<Json>)
    | Obj(fields: map<string, Json>)

  // ---------------------------------------------------------------- nodes of a value, by path

  datatype Edge = Item(index: nat) | Field(key: string)

  /** The node a path leads to, if there is one. */
  function At(j: Json, path: seq<Edge>): Option<Json>
    decreases |path|
  {
    if path == [] then Some(j)
    else match (j, path[0])
      case (Arr(items), Item(i)) => if i < |items| then At(items[i], path[1..]) else None
      case (Obj(m), Field(k)) => if k in m then At(m[k], path[1..]) else None
      case _ => None
  }

  /** Some node lies more than `limit` edges below the root of `j`. */
  predicate DeeperThan(j: Json, limit: int) {
    limit < 0 ||
    match j
    case Arr(items) => exists i :: 0 <= i < |items| && DeeperThan(items[i], limit - 1)
    case Obj(m) => exists k :: k in m && DeeperThan(m[k], limit - 1)
    case _ => false
  }

  lemma {:induction false} DeeperThanIffLongPath(j: Json, limit: nat)
    ensures DeeperThan(j, limit) <==> exists path :: |path| == limit + 1 && At(j, path).Some?
  {
    if DeeperThan(j, limit) {
      var path := DeepPath(j, limit);
    }
    forall path | |path| == limit + 1 && At(j, path).Some?
      ensures DeeperThan(j, limit)
    {
      PathIsDeep(j, limit, path);
    }
  }

  lemma {:induction false} DeepPath(j: Json, limit: int) returns (path: seq<Edge>)
    requires limit >= -1 && DeeperThan(j, limit)
    ensures |path| == limit + 1 && At(j, path).Some?
  {
    if limit < 0 {
      return [];
    }
    match j
    case Arr(items) =>
      var i :| 0 <= i < |items| && DeeperThan(items[i], limit - 1);
      var rest := DeepPath(items[i], limit - 1);
      path := [Item(i)] + rest;
      assert path[1..] == rest;
    case Obj(m) =>
      var k :| k in m && DeeperThan(m[k], limit - 1);
      var rest := DeepPath(m[k], limit - 1);
      path := [Field(k)] + rest;
      assert path[1..] == rest;
  }

  lemma {:induction false} PathIsDeep(j: Json, limit: int, path: seq<Edge>)
    requires |path| == limit + 1 && At(j, path).Some?
    ensures DeeperThan(j, limit)
    decreases |path|
  {
    if limit < 0 {
    } else {
      match (j, path[0]) {
        case (Arr(items), Item(i)) => PathIsDeep(items[i], limit - 1, path[1..]);
        case (Obj(m), Field(k)) => PathIsDeep(m[k], limit - 1, path[1..]);
      }
    }
  }

  // ---------------------------------------------------------------- substitution of the tag

  function Subst(j: Json, tag: string, hex: string): Json {
    match j
    case Str(s) => if s == tag then Str(hex) else j
    case Arr(items) => Arr(seq(|items|, i requires 0 <= i < |items| => Subst(items[i], tag, hex)))
    case Obj(m) => Obj(map k | k in m :: Subst(m[k], tag, hex))
    case _ => j
  }

  /** The tag occurs as a value; object keys do not count. */
  predicate HasTag(j: Json, tag: string) {
    match j
    case Str(s) => s == tag
    case Arr(items) => exists i :: 0 <= i < |items| && HasTag(items[i], tag)
    case Obj(m) => exists k :: k in m && HasTag(m[k], tag)
    case _ => false
  }

  lemma {:induction false} SubstWithoutTag(j: Json, tag: string, hex: string)
    requires !HasTag(j, tag)
    ensures Subst(j, tag, hex) == j
  {
    match j
    case Arr(items) =>
      forall i | 0 <= i < |items| ensures Subst(items[i], tag, hex) == items[i] {
        SubstWithoutTag(items[i], tag, hex);
      }
    case Obj(m) =>
      forall k | k in m ensures Subst(m[k], tag, hex) == m[k] {
        SubstWithoutTag(m[k], tag, hex);
      }
    case _ =>
  }

  /**
    Substitution keeps the shape: the same paths lead somewhere, and what they lead to is the
    old node with its own tags replaced.  In particular a leaf that is not the tag is untouched.
  */
  lemma {:induction false} SubstAtEveryPath(j: Json, tag: string, hex: string, path: seq<Edge>)
    ensures At(Subst(j, tag, hex), path) ==
            if At(j, path).None? then None else Some(Subst(At(j, path).value, tag, hex))
    decreases |path|
  {
    if path == [] {
    } else {
      match (j, path[0])
      case (Arr(items), Item(i)) =>
        if i < |items| {
          SubstAtEveryPath(items[i], tag, hex, path[1..]);
        }
      case (Obj(m), Field(k)) =>
        if k in m {
          SubstAtEveryPath(m[k], tag, hex, path[1..]);
        }
      case _ =>
    }
  }

  /** What must stand at a path, given what stood there: the tag is replaced and nothing else changes. */
  predicate Becomes(was: Option<Json>, now: Option<Json>, tag: string, hex: string) {
    match was
    case None => now.None?
    case Some(Arr(items)) => now.Some? && now.value.Arr? && |now.value.items| == |items|
    case Some(Obj(m)) => now.Some? && now.value.Obj? && now.value.fields.Keys == m.Keys
    case Some(Str(s)) => now == Some(Str(if s == tag then hex else s))
    case Some(_) => now == was
  }

  /** At every path: the tag becomes the string `hex`, any other scalar stays, arrays and objects keep their shape. */
  lemma SubstReplacesTheTag(j: Json, tag: string, hex: string, path: seq<Edge>)
    ensures Becomes(At(j, path), At(Subst(j, tag, hex), path), tag, hex)
  {
    SubstAtEveryPath(j, tag, hex, path);
  }

  /** And that determines it: no other value looks like this at every path. */
  lemma {:induction false} SubstIsDetermined(j: Json, r: Json, tag: string, hex: string)
    requires forall path :: Becomes(At(j, path), At(r, path), tag, hex)
    ensures r == Subst(j, tag, hex)
  {
    assert Becomes(At(j, []), At(r, []), tag, hex);
    match j
    case Arr(items) =>
      forall i | 0 <= i < |items| ensures r.items[i] == Subst(items[i], tag, hex) {
        forall path ensures Becomes(At(items[i], path), At(r.items[i], path), tag, hex) {
          assert Becomes(At(j, [Item(i)] + path), At(r, [Item(i)] + path), tag, hex);
          assert ([Item(i)] + path)[1..] == path;
        }
        SubstIsDetermined(items[i], r.items[i], tag, hex);
      }
    case Obj(m) =>
      forall k | k in m ensures r.fields[k] == Subst(m[k], tag, hex) {
        forall path ensures Becomes(At(m[k], path), At(r.fields[k], path), tag, hex) {
          assert Becomes(At(j, [Field(k)] + path), At(r, [Field(k)] + path), tag, hex);
          assert ([Field(k)] + path)[1..] == path;
        }
        SubstIsDetermined(m[k], r.fields[k], tag, hex);
      }
    case _ =>
  }

  lemma {:induction false} HasTagIffSomePath(j: Json, tag: string)
    ensures HasTag(j, tag) <==> exists path :: At(j, path) == Some(Str(tag))
  {
    if HasTag(j, tag) {
      var path := TagPath(j, tag);
    }
    forall path | At(j, path) == Some(Str(tag))
      ensures HasTag(j, tag)
    {
      PathHasTag(j, tag, path);
    }
  }

  lemma {:induction false} TagPath(j: Json, tag: string) returns (path: seq<Edge>)
    requires HasTag(j, tag)
    ensures At(j, path) == Some(Str(tag))
  {
    match j
    case Str(_) => path := [];
    case Arr(items) =>
      var i :| 0 <= i < |items| && HasTag(items[i], tag);
      var rest := TagPath(items[i], tag);
      path := [Item(i)] + rest;
      assert path[1..] == rest;
    case Obj(m) =>
      var k :| k in m && HasTag(m[k], tag);
      var rest := TagPath(m[k], tag);
      path := [Field(k)] + rest;
      assert path[1..] == rest;
  }

  lemma {:induction false} PathHasTag(j: Json, tag: string, path: seq<Edge>)
    requires At(j, path) == Some(Str(tag))
    ensures HasTag(j, tag)
    decreases |path|
  {
    if path == [] {
    } else {
      match (j, path[0]) {
        case (Arr(items), Item(i)) => PathHasTag(items[i], tag, path[1..]);
        case (Obj(m), Field(k)) => PathHasTag(m[k], tag, path[1..]);
      }
    }
  }

  /** One pass leaves no tag behind unless the replacement is the tag itself. */
  lemma {:induction false} SubstLeavesNoTag(j: Json, tag: string, hex: string)
    ensures tag != hex ==> !HasTag(Subst(j, tag, hex), tag)
    ensures tag == hex ==> Subst(j, tag, hex) == j
  {
    match j
    case Arr(items) =>
      forall i | 0 <= i < |items|
        ensures tag != hex ==> !HasTag(Subst(items[i], tag, hex), tag)
        ensures tag == hex ==> Subst(items[i], tag, hex) == items[i]
      {
        SubstLeavesNoTag(items[i], tag, hex);
      }
    case Obj(m) =>
      forall k | k in m
        ensures tag != hex ==> !HasTag(Subst(m[k], tag, hex), tag)
        ensures tag == hex ==> Subst(m[k], tag, hex) == m[k]
      {
        SubstLeavesNoTag(m[k], tag, hex);
      }
    case _ =>
  }

  lemma {:induction false} SubstIdempotent(j: Json, tag: string, hex: string)
    ensures Subst(Subst(j, tag, hex), tag, hex) == Subst(j, tag, hex)
  {
    SubstLeavesNoTag(j, tag, hex);
    if tag != hex {
      SubstWithoutTag(Subst(j, tag, hex), tag, hex);
    }
  }

  // ---------------------------------------------------------------- the hexadecimal block number

  const DIGITS: string := "0123456789abcdef"

  function HexDigits(n: nat): (s: string)
    ensures |s| > 0
  {
    if n < 16 then [DIGITS[n]] else HexDigits(n / 16) + [DIGITS[n % 16]]
  }

  /** Go's `0x%x`. */
  function Hex(n: nat): string {
    "0x" + HexDigits(n)
  }

  function DigitValue(c: char): nat {
    if '0' <= c <= '9' then (c - '0') as nat
    else if 'a' <= c <= 'f' then (c - 'a') as nat + 10
    else 0
  }

  function Value(s: string): nat {
    if s == [] then 0 else 16 * Value(s[..|s| - 1]) + DigitValue(s[|s| - 1])
  }

  predicate IsHexDigit(c: char) {
    '0' <= c <= '9' || 'a' <= c <= 'f'
  }

  /** The text is "0x" and the digits of n, without leading zeros. */
  predicate ReadsAs(s: string, n: nat) {
    && |s| > 2 && s[..2] == "0x"
    && (forall i :: 2 <= i < |s| ==> IsHexDigit(s[i]))
    && (s[2] == '0' <==> n == 0)
    && Value(s[2..]) == n
  }

  lemma {:induction false} HexDigitsRoundTrip(n: nat)
    ensures Value(HexDigits(n)) == n
    ensures forall i :: 0 <= i < |HexDigits(n)| ==> IsHexDigit(HexDigits(n)[i])
    ensures HexDigits(n)[0] == '0' <==> n == 0
  {
    assert forall d: nat :: d < 16 ==> DigitValue(DIGITS[d]) == d && IsHexDigit(DIGITS[d]);
    var s := HexDigits(n);
    if n < 16 {
      assert s[..0] == [];
      assert Value(s) == DigitValue(DIGITS[n]);
    } else {
      HexDigitsRoundTrip(n / 16);
      assert s[..|s| - 1] == HexDigits(n / 16);
    }
  }

  /** A client reading the substituted text recovers the number; the text has no leading zero. */
  lemma HexReadsBack(n: nat)
    ensures ReadsAs(Hex(n), n)
  {
    HexDigitsRoundTrip(n);
    assert Hex(n)[2..] == HexDigits(n);
  }
}
