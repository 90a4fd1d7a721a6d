/** The canonical serializer: a replacer that sorts the keys of every object, then JSON printing,
    modelled down to tokens. */
module Serializer {
  import opened JsMath
  import opened KeyOrder

  /** Unicode normalization, which is a library call. */
  type Nfc = JsString -> JsString

  /** `Float` stands for every number that is not an integer. */
  datatype Json =
    | Null
    | Bool(b: bool)
    | Num(n: int)
    | Float
    | Str(s: JsString)
    | Arr(items: seq<Json>)
    | Obj(members: seq<Member>)

  /** An own property, in the object's own order. */
  datatype Member = Member(key: JsString, value: Json)

  const MAX_SAFE: int := 9_007_199_254_740_991

  // ----- canonical trees -----

  function Keys(ms: seq<Member>): (ks: seq<JsString>)
    ensures |ks| == |ms| && forall i :: 0 <= i < |ms| ==> ks[i] == ms[i].key
  {
    if ms == [] then [] else [ms[0].key] + Keys(ms[1..])
  }

  predicate HasKey(ms: seq<Member>, k: JsString) { exists i :: 0 <= i < |ms| && ms[i].key == k }

  /** The first place where an object holds a key. */
  function Find(ms: seq<Member>, k: JsString): (i: nat)
    requires HasKey(ms, k)
    ensures i < |ms| && ms[i].key == k
  {
    if ms[0].key == k then 0
    else
      assert HasKey(ms[1..], k) by {
        var i :| 0 <= i < |ms| && ms[i].key == k;
        assert ms[1..][i - 1].key == k;
      }
      1 + Find(ms[1..], k)
  }

  lemma KeysAreHeld(ms: seq<Member>)
    ensures forall k :: k in Keys(ms) <==> HasKey(ms, k)
  {
    forall k
      ensures k in Keys(ms) <==> HasKey(ms, k)
    {
      if HasKey(ms, k) {
        var i :| 0 <= i < |ms| && ms[i].key == k;
        assert Keys(ms)[i] == k;
      }
    }
  }

  /** The keys of an object, as the canonical object prints them. */
  function PrintedKeys(ms: seq<Member>): (ks: seq<JsString>)
    ensures forall k :: k in ks ==> HasKey(ms, k)
  {
    PrintedWithin(Keys(ms));
    KeysAreHeld(ms);
    Printed(Keys(ms))
  }

  /** The tree the replacer makes of `v`. */
  function Canon(nfc: Nfc, v: Json): Json
    decreases v, 1, 0
  {
    match v
    case Str(s) => Str(nfc(s))
    case Arr(items) => Arr(CanonItems(nfc, items))
    case Obj(ms) => Obj(CanonMembers(nfc, v, PrintedKeys(ms)))
    case _ => v
  }

  function CanonItems(nfc: Nfc, items: seq<Json>): (r: seq<Json>)
    ensures |r| == |items|
    decreases items, 0, 0
  {
    if items == [] then [] else [Canon(nfc, items[0])] + CanonItems(nfc, items[1..])
  }

  function CanonMembers(nfc: Nfc, v: Json, ks: seq<JsString>): (r: seq<Member>)
    requires v.Obj? && forall k :: k in ks ==> HasKey(v.members, k)
    ensures |r| == |ks|
    decreases v, 0, |ks|
  {
    if ks == [] then []
    else
      [Member(ks[0], Canon(nfc, v.members[Find(v.members, ks[0])].value))] + CanonMembers(nfc, v, ks[1..])
  }

  predicate DistinctKeys(ms: seq<Member>) {
    forall i, j :: 0 <= i < j < |ms| ==> ms[i].key != ms[j].key
  }

  /** Every object of the tree has distinct keys, as objects do. */
  predicate Keyed(v: Json) {
    match v
    case Arr(items) => forall i :: 0 <= i < |items| ==> Keyed(items[i])
    case Obj(ms) => DistinctKeys(ms) && forall i :: 0 <= i < |ms| ==> Keyed(ms[i].value)
    case _ => true
  }

  /** Serializing throws on a number that is not a safe integer, wherever the printing meets it. */
  predicate Throws(v: Json) {
    match v
    case Num(n) => n < -MAX_SAFE || n > MAX_SAFE
    case Float => true
    case Arr(items) => exists i :: 0 <= i < |items| && Throws(items[i])
    case Obj(ms) => exists i :: 0 <= i < |ms| && ms[i].key != PROTO && Throws(ms[i].value)
    case _ => false
  }

  /** Equality up to the order of keys and the normalization of string values, at every depth;
      members under "__proto__" are not looked at. */
  predicate Same(nfc: Nfc, a: Json, b: Json)
    decreases a
  {
    match (a, b)
    case (Str(s), Str(t)) => nfc(s) == nfc(t)
    case (Arr(xs), Arr(ys)) => |xs| == |ys| && forall i :: 0 <= i < |xs| ==> Same(nfc, xs[i], ys[i])
    case (Obj(ms), Obj(ns)) =>
      && SameKeys(ms, ns)
      && forall i, j :: 0 <= i < |ms| && 0 <= j < |ns| && ms[i].key == ns[j].key != PROTO ==>
           Same(nfc, ms[i].value, ns[j].value)
    case _ => a == b && !a.Str? && !a.Arr? && !a.Obj?
  }

  ghost predicate SameKeysOf(ms: seq<Member>, ns: seq<Member>) {
    forall k :: k != PROTO ==> (HasKey(ms, k) <==> HasKey(ns, k))
  }

  predicate SameKeys(ms: seq<Member>, ns: seq<Member>)
    ensures SameKeys(ms, ns) <==> SameKeysOf(ms, ns)
  {
    var r := (forall i :: 0 <= i < |ms| && ms[i].key != PROTO ==> HasKey(ns, ms[i].key))
             && (forall j :: 0 <= j < |ns| && ns[j].key != PROTO ==> HasKey(ms, ns[j].key));
    assert r <== SameKeysOf(ms, ns) by {
      if SameKeysOf(ms, ns) {
        assert forall i :: 0 <= i < |ms| ==> HasKey(ms, ms[i].key);
        assert forall j :: 0 <= j < |ns| ==> HasKey(ns, ns[j].key);
      }
    }
    r
  }

  // ----- printing -----

  datatype Token =
    | LBrace | RBrace | LBracket | RBracket | Comma | Colon
    | TNull | TBool(b: bool) | TNum(n: int) | TFloat | TStr(s: JsString)

  /** ECMA-262, section 25.5.2, without indentation. */
  function Print(v: Json): (ts: seq<Token>)
    ensures ts != [] && Starts(ts[0])
    decreases v, 1, 0
  {
    match v
    case Null => [TNull]
    case Bool(b) => [TBool(b)]
    case Num(n) => [TNum(n)]
    case Float => [TFloat]
    case Str(s) => [TStr(s)]
    case Arr(items) => [LBracket] + PrintItems(items)
    case Obj(ms) => [LBrace] + PrintMembers(ms)
  }

  /** The tokens a value can start with. */
  predicate Starts(t: Token) { !t.RBracket? && !t.RBrace? && !t.Comma? && !t.Colon? }

  function PrintItems(items: seq<Json>): seq<Token>
    decreases items, 1, 0
  {
    if items == [] then [RBracket] else Print(items[0]) + AfterItem(items)
  }

  function AfterItem(items: seq<Json>): seq<Token>
    requires items != []
    decreases items, 0, 0
  {
    if |items| == 1 then [RBracket] else [Comma] + PrintItems(items[1..])
  }

  function PrintMembers(ms: seq<Member>): seq<Token>
    decreases ms, 1, 0
  {
    if ms == [] then [RBrace] else [TStr(ms[0].key), Colon] + (Print(ms[0].value) + AfterMember(ms))
  }

  function AfterMember(ms: seq<Member>): seq<Token>
    requires ms != []
    decreases ms, 0, 0
  {
    if |ms| == 1 then [RBrace] else [Comma] + PrintMembers(ms[1..])
  }

  /** The errors the replacer throws on numbers: a TypeError and a RangeError. */
  datatype NumberError = NotAnInteger | NotSafe

  /** The first error met in the order of printing. */
  function FirstError(v: Json): Option<NumberError>
    decreases v, 1
  {
    match v
    case Num(n) => if n < -MAX_SAFE || n > MAX_SAFE then Some(NotSafe) else None
    case Float => Some(NotAnInteger)
    case Arr(items) => FirstItemError(items)
    case Obj(ms) => FirstMemberError(ms)
    case _ => None
  }

  function FirstItemError(items: seq<Json>): Option<NumberError>
    decreases items, 0
  {
    if items == [] then None
    else if FirstError(items[0]).Some? then FirstError(items[0])
    else FirstItemError(items[1..])
  }

  function FirstMemberError(ms: seq<Member>): Option<NumberError>
    decreases ms, 0
  {
    if ms == [] then None
    else if FirstError(ms[0].value).Some? then FirstError(ms[0].value)
    else FirstMemberError(ms[1..])
  }

  datatype Serialized = Tokens(tokens: seq<Token>) | Fails(error: NumberError)

  function Serialize(nfc: Nfc, v: Json): Serialized {
    var c := Canon(nfc, v);
    match FirstError(c)
    case Some(e) => Fails(e)
    case None => Tokens(Print(c))
  }

  // ----- reading back -----

  /** Reads one value by the grammar of ECMA-404, and returns what follows it. */
  function Read(ts: seq<Token>): (r: Option<(Json, seq<Token>)>)
    ensures r.Some? ==> |r.value.1| < |ts|
    decreases |ts|, 0
  {
    if ts == [] then None
    else
      match ts[0]
      case TNull => Some((Null, ts[1..]))
      case TBool(b) => Some((Bool(b), ts[1..]))
      case TNum(n) => Some((Num(n), ts[1..]))
      case TFloat => Some((Float, ts[1..]))
      case TStr(s) => Some((Str(s), ts[1..]))
      case LBracket =>
        if ts[1..] != [] && ts[1].RBracket? then Some((Arr([]), ts[2..]))
        else (match ReadItems(ts[1..]) case None => None case Some((items, rest)) => Some((Arr(items), rest)))
      case LBrace =>
        if ts[1..] != [] && ts[1].RBrace? then Some((Obj([]), ts[2..]))
        else (match ReadMembers(ts[1..]) case None => None case Some((ms, rest)) => Some((Obj(ms), rest)))
      case _ => None
  }

  /** One value or more, with commas between them, and the closing bracket. */
  function ReadItems(ts: seq<Token>): (r: Option<(seq<Json>, seq<Token>)>)
    ensures r.Some? ==> |r.value.1| < |ts|
    decreases |ts|, 1
  {
    match Read(ts)
    case None => None
    case Some((v, rest)) =>
      if rest == [] then None
      else if rest[0].RBracket? then Some(([v], rest[1..]))
      else if !rest[0].Comma? then None
      else (match ReadItems(rest[1..]) case None => None case Some((items, rest')) => Some(([v] + items, rest')))
  }

  /** One member or more, with commas between them, and the closing brace. */
  function ReadMembers(ts: seq<Token>): (r: Option<(seq<Member>, seq<Token>)>)
    ensures r.Some? ==> |r.value.1| < |ts|
    decreases |ts|, 1
  {
    if |ts| < 2 || !ts[0].TStr? || !ts[1].Colon? then None
    else
      match Read(ts[2..])
      case None => None
      case Some((v, rest)) =>
        if rest == [] then None
        else if rest[0].RBrace? then Some(([Member(ts[0].s, v)], rest[1..]))
        else if !rest[0].Comma? then None
        else
          match ReadMembers(rest[1..])
          case None => None
          case Some((ms, rest')) => Some(([Member(ts[0].s, v)] + ms, rest'))
  }

  /** A printed tree is read back as itself, and what follows it is left. */
  lemma {:induction false} ReadsBack(v: Json, rest: seq<Token>)
    ensures Read(Print(v) + rest) == Some((v, rest))
    decreases v, 1
  {
    var ts := Print(v) + rest;
    assert ts[0] == Print(v)[0];
    match v
    case Arr(items) =>
      assert ts[1..] == PrintItems(items) + rest;
      if items == [] {
        assert ts[2..] == rest;
      } else {
        assert PrintItems(items)[0] == Print(items[0])[0];
        ItemsReadBack(items, rest);
      }
    case Obj(ms) =>
      assert ts[1..] == PrintMembers(ms) + rest;
      if ms == [] {
        assert ts[2..] == rest;
      } else {
        MembersReadBack(ms, rest);
      }
    case _ => assert ts[1..] == rest;
  }

  lemma OneItemRead(ts: seq<Token>, v: Json, after: seq<Token>)
    requires Read(ts) == Some((v, after)) && after != [] && after[0] == RBracket
    ensures ReadItems(ts) == Some(([v], after[1..]))
  {
  }

  lemma NextItemRead(ts: seq<Token>, v: Json, after: seq<Token>, items: seq<Json>, rest: seq<Token>)
    requires Read(ts) == Some((v, after)) && after != [] && after[0] == Comma
    requires ReadItems(after[1..]) == Some((items, rest))
    ensures ReadItems(ts) == Some(([v] + items, rest))
  {
  }

  lemma OneMemberRead(ts: seq<Token>, key: JsString, v: Json, after: seq<Token>)
    requires |ts| >= 2 && ts[0] == TStr(key) && ts[1] == Colon
    requires Read(ts[2..]) == Some((v, after)) && after != [] && after[0] == RBrace
    ensures ReadMembers(ts) == Some(([Member(key, v)], after[1..]))
  {
  }

  lemma NextMemberRead(ts: seq<Token>, key: JsString, v: Json, after: seq<Token>, ms: seq<Member>, rest: seq<Token>)
    requires |ts| >= 2 && ts[0] == TStr(key) && ts[1] == Colon
    requires Read(ts[2..]) == Some((v, after)) && after != [] && after[0] == Comma
    requires ReadMembers(after[1..]) == Some((ms, rest))
    ensures ReadMembers(ts) == Some(([Member(key, v)] + ms, rest))
  {
  }

  lemma Regroup(a: seq<Token>, b: seq<Token>, c: seq<Token>)
    ensures (a + b) + c == a + (b + c)
  {
  }

  lemma ItemsSplit(items: seq<Json>, rest: seq<Token>)
    requires items != []
    ensures PrintItems(items) + rest == Print(items[0]) + (AfterItem(items) + rest)
    ensures AfterItem(items) + rest ==
            if |items| == 1 then [RBracket] + rest else [Comma] + (PrintItems(items[1..]) + rest)
  {
    Regroup(Print(items[0]), AfterItem(items), rest);
    if |items| > 1 { Regroup([Comma], PrintItems(items[1..]), rest); }
  }

  lemma {:induction false} ItemsReadBack(items: seq<Json>, rest: seq<Token>)
    requires items != []
    ensures ReadItems(PrintItems(items) + rest) == Some((items, rest))
    decreases items, 0
  {
    var ts, after := PrintItems(items) + rest, AfterItem(items) + rest;
    ItemsSplit(items, rest);
    ReadsBack(items[0], after);
    assert items == [items[0]] + items[1..];
    if |items| == 1 {
      assert items == [items[0]] && after[1..] == rest;
      OneItemRead(ts, items[0], after);
    } else {
      assert after[1..] == PrintItems(items[1..]) + rest;
      ItemsReadBack(items[1..], rest);
      NextItemRead(ts, items[0], after, items[1..], rest);
    }
  }

  lemma MembersSplit(ms: seq<Member>, rest: seq<Token>)
    requires ms != []
    ensures var ts := PrintMembers(ms) + rest;
            && |ts| >= 2 && ts[0] == TStr(ms[0].key) && ts[1] == Colon
            && ts[2..] == Print(ms[0].value) + (AfterMember(ms) + rest)
    ensures AfterMember(ms) + rest ==
            if |ms| == 1 then [RBrace] + rest else [Comma] + (PrintMembers(ms[1..]) + rest)
  {
    var front := [TStr(ms[0].key), Colon];
    Regroup(front, Print(ms[0].value) + AfterMember(ms), rest);
    Regroup(Print(ms[0].value), AfterMember(ms), rest);
    if |ms| > 1 { Regroup([Comma], PrintMembers(ms[1..]), rest); }
  }

  lemma {:induction false} MembersReadBack(ms: seq<Member>, rest: seq<Token>)
    requires ms != []
    ensures ReadMembers(PrintMembers(ms) + rest) == Some((ms, rest))
    decreases ms, 0
  {
    var ts, after := PrintMembers(ms) + rest, AfterMember(ms) + rest;
    MembersSplit(ms, rest);
    ReadsBack(ms[0].value, after);
    assert ms == [Member(ms[0].key, ms[0].value)] + ms[1..];
    if |ms| == 1 {
      assert ms == [Member(ms[0].key, ms[0].value)] && after[1..] == rest;
      OneMemberRead(ts, ms[0].key, ms[0].value, after);
    } else {
      assert after[1..] == PrintMembers(ms[1..]) + rest;
      MembersReadBack(ms[1..], rest);
      NextMemberRead(ts, ms[0].key, ms[0].value, after, ms[1..], rest);
    }
  }

  /** A printed tree determines the tree and where it ends. */
  lemma PrintReadable(a: Json, b: Json, s: seq<Token>, t: seq<Token>)
    requires Print(a) + s == Print(b) + t
    ensures a == b && s == t
  {
    ReadsBack(a, s);
    ReadsBack(b, t);
  }

  // ----- the error thrown -----

  /** A number that JavaScript cannot hold as an exact integer. */
  predicate Bad(t: Token) { t.TFloat? || (t.TNum? && !(-9_007_199_254_740_991 <= t.n <= 9_007_199_254_740_991)) }

  /** What the first bad token, if any, makes the replacer throw. */
  ghost predicate ThrownAt(ts: seq<Token>, e: Option<NumberError>) {
    match e
    case None => forall i :: 0 <= i < |ts| ==> !Bad(ts[i])
    case Some(error) =>
      exists i :: 0 <= i < |ts| && Bad(ts[i]) && (forall j :: 0 <= j < i ==> !Bad(ts[j]))
                  && (error == NotAnInteger <==> ts[i].TFloat?)
  }

  lemma ThrownInFront(front: seq<Token>, back: seq<Token>, e: Option<NumberError>, f: Option<NumberError>)
    requires ThrownAt(front, e) && (e.None? ==> ThrownAt(back, f))
    ensures ThrownAt(front + back, if e.Some? then e else f)
  {
    var all := front + back;
    if e.Some? {
      var i :| 0 <= i < |front| && Bad(front[i]) && (forall j :: 0 <= j < i ==> !Bad(front[j]))
               && (e.value == NotAnInteger <==> front[i].TFloat?);
      assert all[i] == front[i];
    } else if f.Some? {
      var i :| 0 <= i < |back| && Bad(back[i]) && (forall j :: 0 <= j < i ==> !Bad(back[j]))
               && (f.value == NotAnInteger <==> back[i].TFloat?);
      assert all[|front| + i] == back[i];
    }
  }

  /** The error is that of the first bad number printed, and none is thrown exactly when there is none. */
  lemma {:induction false} ErrorIsFirst(v: Json)
    ensures ThrownAt(Print(v), FirstError(v))
    decreases v, 1
  {
    match v
    case Arr(items) =>
      ItemErrorIsFirst(items);
      ThrownInFront([LBracket], PrintItems(items), None, FirstItemError(items));
    case Obj(ms) =>
      MemberErrorIsFirst(ms);
      ThrownInFront([LBrace], PrintMembers(ms), None, FirstMemberError(ms));
    case _ => assert |Print(v)| == 1;
  }

  lemma {:induction false} ItemErrorIsFirst(items: seq<Json>)
    ensures ThrownAt(PrintItems(items), FirstItemError(items))
    decreases items, 0
  {
    if items != [] {
      ErrorIsFirst(items[0]);
      if |items| > 1 {
        ItemErrorIsFirst(items[1..]);
        ThrownInFront([Comma], PrintItems(items[1..]), None, FirstItemError(items[1..]));
      }
      assert ThrownAt(AfterItem(items), FirstItemError(items[1..]));
      ThrownInFront(Print(items[0]), AfterItem(items), FirstError(items[0]), FirstItemError(items[1..]));
    }
  }

  lemma {:induction false} MemberErrorIsFirst(ms: seq<Member>)
    ensures ThrownAt(PrintMembers(ms), FirstMemberError(ms))
    decreases ms, 0
  {
    if ms != [] {
      ErrorIsFirst(ms[0].value);
      if |ms| > 1 {
        MemberErrorIsFirst(ms[1..]);
        ThrownInFront([Comma], PrintMembers(ms[1..]), None, FirstMemberError(ms[1..]));
      }
      assert ThrownAt(AfterMember(ms), FirstMemberError(ms[1..]));
      ThrownInFront(Print(ms[0].value), AfterMember(ms), FirstError(ms[0].value), FirstMemberError(ms[1..]));
      ThrownInFront([TStr(ms[0].key), Colon], Print(ms[0].value) + AfterMember(ms), None, FirstMemberError(ms));
    }
  }

  /** What serializing returns: the tokens of the canonical tree, or the error of the first bad one. */
  lemma SerializeIs(nfc: Nfc, v: Json)
    ensures match Serialize(nfc, v)
            case Tokens(ts) => Read(ts) == Some((Canon(nfc, v), [])) && forall i :: 0 <= i < |ts| ==> !Bad(ts[i])
            case Fails(e) => ThrownAt(Print(Canon(nfc, v)), Some(e))
  {
    var c := Canon(nfc, v);
    ErrorIsFirst(c);
    ReadsBack(c, []);
    assert Print(c) + [] == Print(c);
  }

  // ----- same tree, same tokens -----

  lemma {:induction false} CanonItemsAt(nfc: Nfc, items: seq<Json>, i: nat)
    requires i < |items|
    ensures CanonItems(nfc, items)[i] == Canon(nfc, items[i])
  {
    if i > 0 { CanonItemsAt(nfc, items[1..], i - 1); }
  }

  lemma {:induction false} CanonMembersAt(nfc: Nfc, v: Json, ks: seq<JsString>, i: nat)
    requires v.Obj? && i < |ks| && forall k :: k in ks ==> HasKey(v.members, k)
    ensures HasKey(v.members, ks[i])
    ensures CanonMembers(nfc, v, ks)[i] == Member(ks[i], Canon(nfc, v.members[Find(v.members, ks[i])].value))
  {
    if i > 0 { CanonMembersAt(nfc, v, ks[1..], i - 1); }
  }

  lemma FindUnique(ms: seq<Member>, i: nat)
    requires DistinctKeys(ms) && i < |ms|
    ensures HasKey(ms, ms[i].key) && Find(ms, ms[i].key) == i
  {
    assert HasKey(ms, ms[i].key);
    var j := Find(ms, ms[i].key);
    assert ms[j].key == ms[i].key;
  }

  lemma PrintedKeysFacts(ms: seq<Member>)
    requires DistinctKeys(ms)
    ensures Distinct(Keys(ms)) && Distinct(PrintedKeys(ms))
    ensures forall k :: k in PrintedKeys(ms) <==> HasKey(ms, k) && k != PROTO
  {
    KeysAreHeld(ms);
    PrintedFacts(Keys(ms));
  }

  lemma PrintedKeysAgree(ms: seq<Member>, ns: seq<Member>)
    requires DistinctKeys(ms) && DistinctKeys(ns)
    ensures SameKeys(ms, ns) <==> PrintedKeys(ms) == PrintedKeys(ns)
  {
    PrintedKeysFacts(ms);
    PrintedKeysFacts(ns);
    KeysAreHeld(ms);
    KeysAreHeld(ns);
    if SameKeys(ms, ns) { PrintedCanonical(Keys(ms), Keys(ns)); }
  }

  /** What a canonical object holds under each printed key. */
  lemma CanonMemberOf(nfc: Nfc, v: Json, ks: seq<JsString>, i: nat, n: nat)
    requires v.Obj? && DistinctKeys(v.members) && ks == PrintedKeys(v.members)
    requires i < |v.members| && n < |ks| && ks[n] == v.members[i].key
    ensures CanonMembers(nfc, v, ks)[n] == Member(ks[n], Canon(nfc, v.members[i].value))
  {
    CanonMembersAt(nfc, v, ks, n);
    FindUnique(v.members, i);
  }

  /** Values under equal keys have equal canonical trees. */
  ghost predicate ValuesAgree(nfc: Nfc, ms: seq<Member>, ns: seq<Member>) {
    forall i, j :: 0 <= i < |ms| && 0 <= j < |ns| && ms[i].key == ns[j].key != PROTO ==>
      Canon(nfc, ms[i].value) == Canon(nfc, ns[j].value)
  }

  lemma CanonMemberAgrees(nfc: Nfc, a: Json, b: Json, ks: seq<JsString>, n: nat)
    requires a.Obj? && b.Obj? && DistinctKeys(a.members) && DistinctKeys(b.members)
    requires ValuesAgree(nfc, a.members, b.members)
    requires ks == PrintedKeys(a.members) == PrintedKeys(b.members) && n < |ks|
    ensures CanonMembers(nfc, a, ks)[n] == CanonMembers(nfc, b, ks)[n]
  {
    PrintedKeysFacts(a.members);
    assert ks[n] in ks;
    var i, j := Find(a.members, ks[n]), Find(b.members, ks[n]);
    CanonMemberOf(nfc, a, ks, i, n);
    CanonMemberOf(nfc, b, ks, j, n);
  }

  lemma {:induction false} CanonMembersAgree(nfc: Nfc, a: Json, b: Json, ks: seq<JsString>, n: nat)
    requires a.Obj? && b.Obj? && DistinctKeys(a.members) && DistinctKeys(b.members)
    requires ValuesAgree(nfc, a.members, b.members)
    requires ks == PrintedKeys(a.members) == PrintedKeys(b.members) && n <= |ks|
    ensures CanonMembers(nfc, a, ks)[n..] == CanonMembers(nfc, b, ks)[n..]
    decreases |ks| - n
  {
    if n < |ks| {
      CanonMembersAgree(nfc, a, b, ks, n + 1);
      CanonMemberAgrees(nfc, a, b, ks, n);
      SplitAt(CanonMembers(nfc, a, ks), n);
      SplitAt(CanonMembers(nfc, b, ks), n);
    }
  }

  lemma SplitAt<T>(s: seq<T>, n: nat)
    requires n < |s|
    ensures s[n..] == [s[n]] + s[n + 1..]
  {
  }

  lemma CanonObjectsAgree(nfc: Nfc, a: Json, b: Json)
    requires a.Obj? && b.Obj? && DistinctKeys(a.members) && DistinctKeys(b.members)
    requires PrintedKeys(a.members) == PrintedKeys(b.members) && ValuesAgree(nfc, a.members, b.members)
    ensures Canon(nfc, a) == Canon(nfc, b)
  {
    var ks := PrintedKeys(a.members);
    CanonMembersAgree(nfc, a, b, ks, 0);
    assert CanonMembers(nfc, a, ks)[0..] == CanonMembers(nfc, a, ks);
    assert CanonMembers(nfc, b, ks)[0..] == CanonMembers(nfc, b, ks);
  }

  lemma CanonObjectsDetermine(nfc: Nfc, a: Json, b: Json)
    requires a.Obj? && b.Obj? && DistinctKeys(a.members) && DistinctKeys(b.members)
    requires Canon(nfc, a) == Canon(nfc, b)
    ensures SameKeys(a.members, b.members) && ValuesAgree(nfc, a.members, b.members)
  {
    var ms, ns, ks := a.members, b.members, PrintedKeys(a.members);
    CanonMembersKeys(nfc, a);
    CanonMembersKeys(nfc, b);
    PrintedKeysAgree(ms, ns);
    PrintedKeysFacts(ms);
    forall i, j | 0 <= i < |ms| && 0 <= j < |ns| && ms[i].key == ns[j].key != PROTO
      ensures Canon(nfc, ms[i].value) == Canon(nfc, ns[j].value)
    {
      assert HasKey(ms, ms[i].key);
      var n :| 0 <= n < |ks| && ks[n] == ms[i].key;
      CanonMemberOf(nfc, a, ks, i, n);
      CanonMemberOf(nfc, b, ks, j, n);
    }
  }

  /** Canonical objects agree exactly when the keys do and the values under equal keys do. */
  lemma CanonObjectsIff(nfc: Nfc, a: Json, b: Json)
    requires a.Obj? && b.Obj? && DistinctKeys(a.members) && DistinctKeys(b.members)
    ensures Canon(nfc, a) == Canon(nfc, b) <==>
            SameKeys(a.members, b.members) && ValuesAgree(nfc, a.members, b.members)
  {
    PrintedKeysAgree(a.members, b.members);
    if Canon(nfc, a) == Canon(nfc, b) { CanonObjectsDetermine(nfc, a, b); }
    if SameKeys(a.members, b.members) && ValuesAgree(nfc, a.members, b.members) { CanonObjectsAgree(nfc, a, b); }
  }

  /** The object case of `CanonIff`, its hypothesis being the statement for the members. */
  lemma CanonObjectsSame(nfc: Nfc, a: Json, b: Json)
    requires a.Obj? && b.Obj? && DistinctKeys(a.members) && DistinctKeys(b.members)
    requires forall i, j :: 0 <= i < |a.members| && 0 <= j < |b.members| ==>
               (Canon(nfc, a.members[i].value) == Canon(nfc, b.members[j].value) <==>
                Same(nfc, a.members[i].value, b.members[j].value))
    ensures Canon(nfc, a) == Canon(nfc, b) <==> Same(nfc, a, b)
  {
    CanonObjectsIff(nfc, a, b);
  }

  /** Two trees have one canonical tree exactly when they are the same. */
  lemma {:induction false} CanonIff(nfc: Nfc, a: Json, b: Json)
    requires Keyed(a) && Keyed(b)
    ensures Canon(nfc, a) == Canon(nfc, b) <==> Same(nfc, a, b)
    decreases a
  {
    if a.Arr? && b.Arr? {
      CanonArraysIff(nfc, a.items, b.items);
    } else if a.Obj? && b.Obj? {
      forall i, j | 0 <= i < |a.members| && 0 <= j < |b.members|
        ensures Canon(nfc, a.members[i].value) == Canon(nfc, b.members[j].value) <==>
                Same(nfc, a.members[i].value, b.members[j].value)
      {
        CanonIff(nfc, a.members[i].value, b.members[j].value);
      }
      CanonObjectsSame(nfc, a, b);
    }
  }

  lemma {:induction false} CanonArraysIff(nfc: Nfc, xs: seq<Json>, ys: seq<Json>)
    requires Keyed(Arr(xs)) && Keyed(Arr(ys))
    ensures CanonItems(nfc, xs) == CanonItems(nfc, ys) <==>
            |xs| == |ys| && forall i :: 0 <= i < |xs| ==> Same(nfc, xs[i], ys[i])
    decreases xs
  {
    var cs, ds := CanonItems(nfc, xs), CanonItems(nfc, ys);
    if |xs| == |ys| {
      forall i | 0 <= i < |xs|
        ensures cs[i] == ds[i] <==> Same(nfc, xs[i], ys[i])
      {
        CanonItemsAt(nfc, xs, i);
        CanonItemsAt(nfc, ys, i);
        CanonIff(nfc, xs[i], ys[i]);
      }
    } else {
      assert |cs| != |ds|;
    }
  }

  lemma {:induction false} SameThrows(nfc: Nfc, a: Json, b: Json)
    requires Same(nfc, a, b)
    ensures Throws(a) <==> Throws(b)
    decreases a
  {
    match (a, b)
    case (Arr(xs), Arr(ys)) =>
      forall i | 0 <= i < |xs| ensures Throws(xs[i]) <==> Throws(ys[i]) { SameThrows(nfc, xs[i], ys[i]); }
    case (Obj(ms), Obj(ns)) =>
      forall i, j | 0 <= i < |ms| && 0 <= j < |ns| && ms[i].key == ns[j].key != PROTO
        ensures Throws(ms[i].value) <==> Throws(ns[j].value)
      {
        SameThrows(nfc, ms[i].value, ns[j].value);
      }
      if Throws(a) {
        var i :| 0 <= i < |ms| && ms[i].key != PROTO && Throws(ms[i].value);
        assert HasKey(ms, ms[i].key);
        var j := Find(ns, ms[i].key);
        assert Throws(ns[j].value);
      }
      if Throws(b) {
        var j :| 0 <= j < |ns| && ns[j].key != PROTO && Throws(ns[j].value);
        assert HasKey(ns, ns[j].key);
        var i := Find(ms, ns[j].key);
        assert Throws(ms[i].value);
      }
    case _ =>
  }

  lemma {:induction false} SomeItemError(items: seq<Json>)
    ensures FirstItemError(items).Some? <==> exists i :: 0 <= i < |items| && FirstError(items[i]).Some?
  {
    if items != [] {
      SomeItemError(items[1..]);
      assert items == [items[0]] + items[1..];
    }
  }

  lemma {:induction false} SomeMemberError(ms: seq<Member>)
    ensures FirstMemberError(ms).Some? <==> exists i :: 0 <= i < |ms| && FirstError(ms[i].value).Some?
  {
    if ms != [] {
      SomeMemberError(ms[1..]);
      assert ms == [ms[0]] + ms[1..];
    }
  }

  /** Serializing fails exactly when some number that is printed is not a safe integer. */
  lemma {:induction false} FailsIff(nfc: Nfc, v: Json)
    requires Keyed(v)
    ensures Serialize(nfc, v).Fails? <==> Throws(v)
    decreases v
  {
    match v
    case Arr(items) =>
      var cs := CanonItems(nfc, items);
      SomeItemError(cs);
      forall i | 0 <= i < |items|
        ensures FirstError(cs[i]).Some? <==> Throws(items[i])
      {
        CanonItemsAt(nfc, items, i);
        FailsIff(nfc, items[i]);
      }
    case Obj(ms) =>
      forall i | 0 <= i < |ms|
        ensures FirstError(Canon(nfc, ms[i].value)).Some? <==> Throws(ms[i].value)
      {
        FailsIff(nfc, ms[i].value);
      }
      MembersFailIff(nfc, v);
    case _ =>
  }

  /** The object's own member behind number n of the canonical object. */
  lemma HeldMember(nfc: Nfc, v: Json, n: nat) returns (i: nat)
    requires v.Obj? && DistinctKeys(v.members) && n < |PrintedKeys(v.members)|
    ensures i < |v.members| && v.members[i].key != PROTO
    ensures CanonMembers(nfc, v, PrintedKeys(v.members))[n].value == Canon(nfc, v.members[i].value)
  {
    var ms, ks := v.members, PrintedKeys(v.members);
    PrintedKeysFacts(ms);
    assert ks[n] in ks;
    i := Find(ms, ks[n]);
    CanonMemberOf(nfc, v, ks, i, n);
  }

  /** The number in the canonical object of the object's own member i. */
  lemma PrintedMember(nfc: Nfc, v: Json, i: nat) returns (n: nat)
    requires v.Obj? && DistinctKeys(v.members) && i < |v.members| && v.members[i].key != PROTO
    ensures n < |PrintedKeys(v.members)|
    ensures CanonMembers(nfc, v, PrintedKeys(v.members))[n].value == Canon(nfc, v.members[i].value)
  {
    var ms, ks := v.members, PrintedKeys(v.members);
    PrintedKeysFacts(ms);
    assert HasKey(ms, ms[i].key);
    n :| 0 <= n < |ks| && ks[n] == ms[i].key;
    CanonMemberOf(nfc, v, ks, i, n);
  }

  lemma MembersFailIff(nfc: Nfc, v: Json)
    requires v.Obj? && DistinctKeys(v.members)
    ensures FirstError(Canon(nfc, v)).Some? <==>
            exists i :: 0 <= i < |v.members| && v.members[i].key != PROTO
                        && FirstError(Canon(nfc, v.members[i].value)).Some?
  {
    var ms, cs := v.members, CanonMembers(nfc, v, PrintedKeys(v.members));
    SomeMemberError(cs);
    if n :| 0 <= n < |cs| && FirstError(cs[n].value).Some? {
      var i := HeldMember(nfc, v, n);
    }
    if i :| 0 <= i < |ms| && ms[i].key != PROTO && FirstError(Canon(nfc, ms[i].value)).Some? {
      var n := PrintedMember(nfc, v, i);
    }
  }

  /** The same tree serializes to the same tokens, or fails with the same error; and two trees
      that serialize to the same tokens are the same. */
  lemma SerializeIff(nfc: Nfc, a: Json, b: Json)
    requires Keyed(a) && Keyed(b)
    ensures Same(nfc, a, b) ==> Serialize(nfc, a) == Serialize(nfc, b)
    ensures Serialize(nfc, a).Tokens? && Serialize(nfc, a) == Serialize(nfc, b) ==> Same(nfc, a, b)
  {
    CanonIff(nfc, a, b);
    if Serialize(nfc, a).Tokens? && Serialize(nfc, a) == Serialize(nfc, b) {
      PrintReadable(Canon(nfc, a), Canon(nfc, b), [], []);
    }
  }

  /** Canonicalizing twice changes nothing, given that normalizing twice does not. */
  lemma {:induction false} CanonIdempotent(nfc: Nfc, v: Json)
    requires Keyed(v) && forall s :: nfc(nfc(s)) == nfc(s)
    ensures Canon(nfc, Canon(nfc, v)) == Canon(nfc, v)
    decreases v
  {
    match v
    case Arr(items) =>
      var c := CanonItems(nfc, items);
      forall i | 0 <= i < |items|
        ensures CanonItems(nfc, c)[i] == c[i]
      {
        CanonItemsAt(nfc, items, i);
        CanonItemsAt(nfc, c, i);
        CanonIdempotent(nfc, items[i]);
      }
    case Obj(ms) =>
      var ks := PrintedKeys(ms);
      var c := Canon(nfc, v);
      CanonMembersKeys(nfc, v);
      CanonKeysAgain(nfc, v);
      forall n | 0 <= n < |ks|
        ensures CanonMembers(nfc, c, ks)[n] == c.members[n]
      {
        CanonMembersAt(nfc, v, ks, n);
        CanonMembersAt(nfc, c, ks, n);
        FindUnique(c.members, n);
        CanonIdempotent(nfc, ms[Find(ms, ks[n])].value);
      }
      assert CanonMembers(nfc, c, ks) == c.members;
    case _ =>
  }

  lemma CanonMembersKeys(nfc: Nfc, v: Json)
    requires v.Obj? && DistinctKeys(v.members)
    ensures Keys(Canon(nfc, v).members) == PrintedKeys(v.members)
    ensures DistinctKeys(Canon(nfc, v).members)
  {
    var ks, ms' := PrintedKeys(v.members), Canon(nfc, v).members;
    PrintedKeysFacts(v.members);
    forall n | 0 <= n < |ks|
      ensures ms'[n].key == ks[n]
    {
      CanonMembersAt(nfc, v, ks, n);
    }
    assert Keys(ms') == ks;
  }

  lemma CanonKeysAgain(nfc: Nfc, v: Json)
    requires v.Obj? && DistinctKeys(v.members)
    ensures PrintedKeys(Canon(nfc, v).members) == PrintedKeys(v.members)
  {
    CanonMembersKeys(nfc, v);
    PrintedKeysFacts(v.members);
    KeysAreHeld(v.members);
    PrintedCanonical(PrintedKeys(v.members), Keys(v.members));
  }

  /** A member under "__proto__" leaves no trace: two objects with different keys serialize alike. */
  lemma ProtoIsLost(nfc: Nfc, x: Json)
    ensures Serialize(nfc, Obj([Member(PROTO, x)])) == Serialize(nfc, Obj([])) == Tokens([LBrace, RBrace])
  {
    var a, b := Obj([Member(PROTO, x)]), Obj([]);
    PrintedKeysFacts(a.members);
    PrintedKeysFacts(b.members);
    NonEmptyHas(PrintedKeys(a.members));
    NonEmptyHas(PrintedKeys(b.members));
    assert Canon(nfc, a) == Obj([]) && Canon(nfc, b) == Obj([]);
    assert Print(Obj([])) == [LBrace, RBrace];
  }
}
