/** The `|`-joined strings that are hashed into queue keys, base points and point ids.

    The truncated hex digest is a parameter; the question answered here is which fields the hashed string still tells
    apart. */
module IdentityKeys {
  import opened Wrappers
  import opened PathNormalize
  import opened Text

  /** The printed name of an item type or of an operation: letters and `_` only. */
  type Label = s: string | '|' !in s && ':' !in s witness "file"

  datatype KeyError = EmptyTenantId | EmptyCollection | InvalidOperationForType(itemType: Label, op: Label)

  datatype QueueItem = QueueItem(itemType: Label, op: Label, tenant: string, collection: string, payload: string)

  function KeyInput(i: QueueItem): string {
    i.itemType + "|" + i.op + "|" + i.tenant + "|" + i.collection + "|" + i.payload
  }

  /** `validFor` is the table of operations each item type accepts. */
  function GenerateIdempotencyKey(digest: string -> string, validFor: (Label, Label) -> bool, i: QueueItem)
    : Result<string, KeyError>
  {
    if i.tenant == "" then Err(EmptyTenantId)
    else if i.collection == "" then Err(EmptyCollection)
    else if !validFor(i.op, i.itemType) then Err(InvalidOperationForType(i.itemType, i.op))
    else Ok(digest(KeyInput(i)))
  }

  /** An item is refused for an empty tenant, else for an empty collection, else for an operation its type does not
      accept, and for nothing else. */
  lemma RefusedIff(digest: string -> string, validFor: (Label, Label) -> bool, i: QueueItem)
    ensures var r := GenerateIdempotencyKey(digest, validFor, i);
            && (r.Ok? <==> i.tenant != "" && i.collection != "" && validFor(i.op, i.itemType))
            && (r == Err(EmptyTenantId) <==> i.tenant == "")
            && (r == Err(EmptyCollection) <==> i.tenant != "" && i.collection == "")
            && (r.Err? && r.error.InvalidOperationForType? ==> r.error.itemType == i.itemType && r.error.op == i.op)
  {
  }

  /** A digest with hex output, free of collisions. */
  ghost predicate HexDigest(digest: string -> string) {
    && (forall s :: '|' !in digest(s))
    && (forall s, t :: digest(s) == digest(t) ==> s == t)
  }

  // ---- Separators --------------------------------------------------------------------

  /** When the left parts have no separator, the first separator splits both strings alike. */
  lemma FirstSeparator(a: string, x: string, b: string, y: string)
    requires '|' !in a && '|' !in b && a + "|" + x == b + "|" + y
    ensures a == b && x == y
  {
    var s := a + "|" + x;
    assert s[|a|] == '|' && s[|b|] == '|';
    assert forall i :: 0 <= i < |a| ==> s[i] == a[i];
    assert forall i :: 0 <= i < |b| ==> s[i] == b[i];
    assert |a| == |b|;
    assert a == s[..|a|] && b == s[..|b|];
    assert x == s[|a| + 1..] && y == s[|b| + 1..];
  }

  /** When the right parts have no separator, the last separator splits both strings alike. */
  lemma LastSeparator(a: string, x: string, b: string, y: string)
    requires '|' !in x && '|' !in y && a + "|" + x == b + "|" + y
    ensures a == b && x == y
  {
    var s := a + "|" + x;
    assert s[|a|] == '|' && s[|b|] == '|';
    assert forall i :: |a| < i < |s| ==> s[i] == x[i - |a| - 1];
    assert forall i :: |b| < i < |s| ==> s[i] == y[i - |b| - 1];
    assert |a| == |b|;
    assert a == s[..|a|] && b == s[..|b|];
    assert x == s[|a| + 1..] && y == s[|b| + 1..];
  }

  // ---- Queue keys --------------------------------------------------------------------

  /** What follows item type and operation in the hashed string. */
  function Tail(tenant: string, collection: string, payload: string): string {
    tenant + "|" + collection + "|" + payload
  }

  /** `s` can be read as a non-empty tenant up to `a`, a non-empty collection up to `b`, and a payload. */
  predicate Cut(s: string, a: nat, b: nat) {
    0 < a && a + 1 < b < |s| && s[a] == '|' && s[b] == '|'
  }

  function ItemAt(i: QueueItem, s: string, a: nat, b: nat): QueueItem
    requires Cut(s, a, b)
  {
    i.(tenant := s[..a], collection := s[a + 1..b], payload := s[b + 1..])
  }

  lemma KeyInputParts(i: QueueItem)
    ensures KeyInput(i) == i.itemType + "|" + (i.op + "|" + Tail(i.tenant, i.collection, i.payload))
  {
  }

  /** The key tells the item type, the operation and the tail. */
  lemma SameKeyIff(digest: string -> string, validFor: (Label, Label) -> bool, i: QueueItem, j: QueueItem)
    requires HexDigest(digest) && GenerateIdempotencyKey(digest, validFor, i).Ok?
    ensures GenerateIdempotencyKey(digest, validFor, i) == GenerateIdempotencyKey(digest, validFor, j)
       <==> && GenerateIdempotencyKey(digest, validFor, j).Ok? && i.itemType == j.itemType && i.op == j.op
            && Tail(i.tenant, i.collection, i.payload) == Tail(j.tenant, j.collection, j.payload)
  {
    hide Tail;
    KeyInputParts(i);
    KeyInputParts(j);
    if KeyInput(i) == KeyInput(j) {
      var iTail, jTail := Tail(i.tenant, i.collection, i.payload), Tail(j.tenant, j.collection, j.payload);
      FirstSeparator(i.itemType, i.op + "|" + iTail, j.itemType, j.op + "|" + jTail);
      FirstSeparator(i.op, iTail, j.op, jTail);
    }
  }

  /** The positions at which an item's own tail is cut. */
  lemma OwnCut(i: QueueItem)
    requires i.tenant != "" && i.collection != ""
    ensures var s, a, b := Tail(i.tenant, i.collection, i.payload), |i.tenant|, |i.tenant| + 1 + |i.collection|;
            Cut(s, a, b) && s[..a] == i.tenant && s[a + 1..b] == i.collection && s[b + 1..] == i.payload
  {
  }

  lemma TailOfCut(s: string, a: nat, b: nat)
    requires Cut(s, a, b)
    ensures Tail(s[..a], s[a + 1..b], s[b + 1..]) == s
  {
    assert s == s[..a] + "|" + s[a + 1..];
    assert s[a + 1..] == s[a + 1..b] + "|" + s[b + 1..];
  }

  /** Another accepted item has the key. */
  ghost predicate Shared(digest: string -> string, validFor: (Label, Label) -> bool, i: QueueItem) {
    exists j :: j != i && GenerateIdempotencyKey(digest, validFor, j) == GenerateIdempotencyKey(digest, validFor, i)
  }

  /** The item's tail can be cut at two other separators. */
  ghost predicate CutsOtherwise(i: QueueItem) {
    exists a: nat, b: nat :: Cut(Tail(i.tenant, i.collection, i.payload), a, b)
                   && !(a == |i.tenant| && b == |i.tenant| + 1 + |i.collection|)
  }

  lemma OtherCutShares(digest: string -> string, validFor: (Label, Label) -> bool, i: QueueItem, a: nat, b: nat)
    requires HexDigest(digest) && GenerateIdempotencyKey(digest, validFor, i).Ok?
    requires Cut(Tail(i.tenant, i.collection, i.payload), a, b)
    requires !(a == |i.tenant| && b == |i.tenant| + 1 + |i.collection|)
    ensures Shared(digest, validFor, i)
  {
    hide Tail, KeyInput, HexDigest;
    var s := Tail(i.tenant, i.collection, i.payload);
    var j := ItemAt(i, s, a, b);
    TailOfCut(s, a, b);
    SameKeyIff(digest, validFor, i, j);
    assert |j.tenant| == a && |j.collection| == b - a - 1;
  }

  lemma SharingItemCuts(digest: string -> string, validFor: (Label, Label) -> bool, i: QueueItem, j: QueueItem)
    requires HexDigest(digest) && GenerateIdempotencyKey(digest, validFor, i).Ok? && j != i
    requires GenerateIdempotencyKey(digest, validFor, j) == GenerateIdempotencyKey(digest, validFor, i)
    ensures CutsOtherwise(i)
  {
    hide Tail, KeyInput, HexDigest, Cut;
    var s := Tail(i.tenant, i.collection, i.payload);
    SameKeyIff(digest, validFor, i, j);
    OwnCut(i);
    OwnCut(j);
    assert Cut(s, |j.tenant|, |j.tenant| + 1 + |j.collection|);
  }

  /** An accepted item shares its key with another one exactly when `tenant|collection|payload` has a second cut at two
      separators that leaves tenant and collection non-empty. */
  lemma KeySharedIff(digest: string -> string, validFor: (Label, Label) -> bool, i: QueueItem)
    requires HexDigest(digest) && GenerateIdempotencyKey(digest, validFor, i).Ok?
    ensures Shared(digest, validFor, i) <==> CutsOtherwise(i)
  {
    hide Tail, HexDigest, GenerateIdempotencyKey, Cut;
    if CutsOtherwise(i) {
      var a: nat, b: nat :| Cut(Tail(i.tenant, i.collection, i.payload), a, b)
                            && !(a == |i.tenant| && b == |i.tenant| + 1 + |i.collection|);
      OtherCutShares(digest, validFor, i, a, b);
    }
    if Shared(digest, validFor, i) {
      var j :| j != i && GenerateIdempotencyKey(digest, validFor, j) == GenerateIdempotencyKey(digest, validFor, i);
      SharingItemCuts(digest, validFor, i, j);
    }
  }

  lemma CharOfTail(t: string, c: string, p: string, k: nat)
    requires k < |Tail(t, c, p)|
    ensures Tail(t, c, p)[k] == if k < |t| then t[k]
                                else if k == |t| then '|'
                                else if k < |t| + 1 + |c| then c[k - |t| - 1]
                                else if k == |t| + 1 + |c| then '|'
                                else p[k - |t| - |c| - 2]
  {
  }

  /** In particular an item whose tail holds no separator but its own two is told apart from every other one. */
  lemma TwoSeparatorsAreUnique(digest: string -> string, validFor: (Label, Label) -> bool, i: QueueItem)
    requires HexDigest(digest) && GenerateIdempotencyKey(digest, validFor, i).Ok?
    requires '|' !in i.tenant && '|' !in i.collection && '|' !in i.payload
    ensures !Shared(digest, validFor, i)
  {
    KeySharedIff(digest, validFor, i);
    hide Shared, Tail;
    var s := Tail(i.tenant, i.collection, i.payload);
    forall k: nat | k < |s| && s[k] == '|'
      ensures k == |i.tenant| || k == |i.tenant| + 1 + |i.collection|
    {
      CharOfTail(i.tenant, i.collection, i.payload, k);
    }
  }

  /** A separator in the payload is enough to share the key, however clean tenant and collection are. */
  lemma SeparatorInPayloadShares(digest: string -> string, validFor: (Label, Label) -> bool, i: QueueItem)
    requires HexDigest(digest) && GenerateIdempotencyKey(digest, validFor, i).Ok? && '|' in i.payload
    ensures Shared(digest, validFor, i)
  {
    KeySharedIff(digest, validFor, i);
    var s, b := Tail(i.tenant, i.collection, i.payload), |i.tenant| + 1 + |i.collection|;
    OwnCut(i);
    var k :| 0 <= k < |i.payload| && i.payload[k] == '|';
    assert s[b + 1..][k] == s[b + 1 + k];
    assert Cut(s, |i.tenant|, b + 1 + k);
  }

  /** A separator in the tenant may move to the collection: the item it makes has the key. */
  lemma MovedSeparatorCollides(digest: string -> string, validFor: (Label, Label) -> bool, i: QueueItem,
                               x: string, y: string)
    requires GenerateIdempotencyKey(digest, validFor, i).Ok? && i.tenant == x + "|" + y && x != ""
    ensures var j := i.(tenant := x, collection := y + "|" + i.collection);
            i != j && GenerateIdempotencyKey(digest, validFor, j) == GenerateIdempotencyKey(digest, validFor, i)
  {
    var j := i.(tenant := x, collection := y + "|" + i.collection);
    assert KeyInput(i) == KeyInput(j);
    assert |i.tenant| > |x|;
  }

  /** Two items that both keep `|` out of tenant and collection have equal keys only when they are the same item. */
  lemma EqualKeysIff(digest: string -> string, validFor: (Label, Label) -> bool, i: QueueItem, j: QueueItem)
    requires HexDigest(digest)
    requires '|' !in i.tenant && '|' !in i.collection && '|' !in j.tenant && '|' !in j.collection
    requires GenerateIdempotencyKey(digest, validFor, i).Ok?
    ensures GenerateIdempotencyKey(digest, validFor, i) == GenerateIdempotencyKey(digest, validFor, j) <==> i == j
  {
    SameKeyIff(digest, validFor, i, j);
    hide GenerateIdempotencyKey, HexDigest;
    var iRest, jRest := i.collection + "|" + i.payload, j.collection + "|" + j.payload;
    assert Tail(i.tenant, i.collection, i.payload) == i.tenant + "|" + iRest;
    assert Tail(j.tenant, j.collection, j.payload) == j.tenant + "|" + jRest;
    if i.tenant + "|" + iRest == j.tenant + "|" + jRest {
      FirstSeparator(i.tenant, iRest, j.tenant, jRest);
      FirstSeparator(i.collection, i.payload, j.collection, j.payload);
    }
  }

  // ---- Base points and point ids ---------------------------------------------------------

  function NormalizePathForId(path: string): string {
    TrimEnd(ToPosix(path), '/')
  }

  /** `path` is `body`, up to separator style, followed by separators only. */
  predicate Slashed(path: string, body: string) {
    body <= ToPosix(path) && forall i :: |body| <= i < |path| ==> path[i] == '/' || path[i] == '\\'
  }

  lemma {:induction false} TrimmedOfBody(s: string, body: string)
    requires body <= s && forall i :: |body| <= i < |s| ==> s[i] == '/'
    ensures TrimEnd(s, '/') == TrimEnd(body, '/')
  {
    if |s| > |body| {
      TrimmedOfBody(s[..|s| - 1], body);
    } else {
      assert s == body;
    }
  }

  lemma SlashedByNormalForm(path: string)
    ensures Slashed(path, NormalizePathForId(path))
  {
    var posix, trimmed := ToPosix(path), NormalizePathForId(path);
    forall i | |trimmed| <= i < |path|
      ensures path[i] == '/' || path[i] == '\\'
    {
      assert posix[i] == '/';
    }
  }

  lemma NormalFormOfSlashed(path: string, body: string)
    requires Slashed(path, body)
    ensures NormalizePathForId(path) == TrimEnd(body, '/')
  {
    var posix := ToPosix(path);
    assert forall i :: |body| <= i < |posix| ==> posix[i] == '/';
    TrimmedOfBody(posix, body);
  }

  /** Two paths name one file for identity exactly when they differ by separator style and trailing separators. */
  lemma SameFileForIdIff(p: string, q: string)
    ensures NormalizePathForId(p) == NormalizePathForId(q) <==> exists body :: Slashed(p, body) && Slashed(q, body)
  {
    hide Slashed, NormalizePathForId;
    SlashedByNormalForm(p);
    SlashedByNormalForm(q);
    if body :| Slashed(p, body) && Slashed(q, body) {
      NormalFormOfSlashed(p, body);
      NormalFormOfSlashed(q, body);
    }
  }

  function ComputeBasePoint(digest: string -> string, tenant: string, path: string, fileHash: string): string {
    digest(tenant + "|" + NormalizePathForId(path) + "|" + fileHash)
  }

  function Decimal(n: nat): string {
    if n < 10 then [('0' as int + n) as char] else Decimal(n / 10) + [('0' as int + n % 10) as char]
  }

  /** The number that a string of digits stands for. */
  function ValueOf(s: string): int {
    if s == "" then 0 else 10 * ValueOf(s[..|s| - 1]) + (s[|s| - 1] as int - '0' as int)
  }

  /** The chunk number is written in decimal, without leading zeros. */
  lemma {:induction false} DecimalIsDecimal(n: nat)
    ensures ValueOf(Decimal(n)) == n
    ensures Decimal(n) != "" && (n > 0 ==> Decimal(n)[0] != '0')
    ensures forall i :: 0 <= i < |Decimal(n)| ==> '0' <= Decimal(n)[i] <= '9'
  {
    var s := Decimal(n);
    if n < 10 {
      assert s[..0] == "";
    } else {
      DecimalIsDecimal(n / 10);
      assert s[..|s| - 1] == Decimal(n / 10);
    }
  }

  function ComputePointId(digest: string -> string, basePoint: string, chunkIndex: nat): string {
    digest(basePoint + "|" + Decimal(chunkIndex))
  }

  /** One base point per tenant, file and content, whatever characters the path contains. */
  lemma EqualBasePointsIff(digest: string -> string, t: string, p: string, h: string, u: string, q: string, k: string)
    requires HexDigest(digest) && '|' !in t && '|' !in h && '|' !in u && '|' !in k
    ensures ComputeBasePoint(digest, t, p, h) == ComputeBasePoint(digest, u, q, k)
        <==> (t == u && NormalizePathForId(p) == NormalizePathForId(q) && h == k)
  {
    var np, nq := NormalizePathForId(p), NormalizePathForId(q);
    if t + "|" + np + "|" + h == u + "|" + nq + "|" + k {
      assert t + "|" + np + "|" + h == t + "|" + (np + "|" + h);
      assert u + "|" + nq + "|" + k == u + "|" + (nq + "|" + k);
      FirstSeparator(t, np + "|" + h, u, nq + "|" + k);
      LastSeparator(np, h, nq, k);
    }
  }

  lemma {:induction false} DecimalInjective(m: nat, n: nat)
    requires Decimal(m) == Decimal(n)
    ensures m == n
  {
    var s := Decimal(m);
    DecimalNonEmpty(m);
    DecimalNonEmpty(n);
    if m >= 10 && n >= 10 {
      assert s[..|s| - 1] == Decimal(m / 10) == Decimal(n / 10);
      DecimalInjective(m / 10, n / 10);
      assert s[|s| - 1] == ('0' as int + m % 10) as char == ('0' as int + n % 10) as char;
    } else if m >= 10 {
      DecimalNonEmpty(m / 10);
    } else if n >= 10 {
      DecimalNonEmpty(n / 10);
    }
  }

  lemma DecimalNonEmpty(n: nat)
    ensures Decimal(n) != ""
  {
  }

  /** One point id per chunk of a base point: equal ids mean equal base points and equal chunk numbers. */
  lemma EqualPointIdsIff(digest: string -> string, b: string, m: nat, c: string, n: nat)
    requires HexDigest(digest) && '|' !in b && '|' !in c
    ensures ComputePointId(digest, b, m) == ComputePointId(digest, c, n) <==> (b == c && m == n)
  {
    if b + "|" + Decimal(m) == c + "|" + Decimal(n) {
      FirstSeparator(b, Decimal(m), c, Decimal(n));
      DecimalInjective(m, n);
    }
  }

  /** A stored point is identified by tenant, file, content and chunk number, and by nothing else. */
  lemma PointIdentity(digest: string -> string,
                      t: string, p: string, h: string, m: nat, u: string, q: string, k: string, n: nat)
    requires HexDigest(digest) && '|' !in t && '|' !in h && '|' !in u && '|' !in k
    ensures ComputePointId(digest, ComputeBasePoint(digest, t, p, h), m)
            == ComputePointId(digest, ComputeBasePoint(digest, u, q, k), n)
        <==> (t == u && NormalizePathForId(p) == NormalizePathForId(q) && h == k && m == n)
  {
    EqualPointIdsIff(digest, ComputeBasePoint(digest, t, p, h), m, ComputeBasePoint(digest, u, q, k), n);
    EqualBasePointsIff(digest, t, p, h, u, q, k);
  }
}
