/** Key versions in the software HSM and the rotation of the krbtgt key on top of them. The HSM step of a
    rotation and the promotion of its handle are separate steps, so rotations may overlap. */
module KeyRotation {
  import opened Bytes

  const KRBTGT: string := "krbtgt"

  datatype KeyKind = Aes256 | HmacSha1 | Rsa2048

  datatype KeyEntry = KeyEntry(kind: KeyKind, material: seq<byte>, version: u32)

  datatype KeyHandle = KeyHandle(id: string, version: u32, kind: KeyKind)

  datatype HsmError = NotFound | Unsupported

  type Keys = map<string, KeyEntry>

  // ---- The HSM ----

  function Bumped(version: u32): (r: u32)
  {
    if version < U32_MAX then version + 1 else version
  }

  function HandleOf(id: string, e: KeyEntry): (h: KeyHandle)
  {
    KeyHandle(id, e.version, e.kind)
  }

  /** Existing keys are handed out as they are; `material` is the random material of a new one. */
  function Generated(keys: Keys, id: string, kind: KeyKind, material: seq<byte>)
    : (r: Result<(Keys, KeyHandle), HsmError>)
  {
    if kind == Rsa2048 then Err(Unsupported)
    else if id in keys then Ok((keys, HandleOf(id, keys[id])))
    else
      var e := KeyEntry(kind, material, 1);
      Ok((keys[id := e], HandleOf(id, e)))
  }

  function Rotated(keys: Keys, id: string, material: seq<byte>): (r: Result<(Keys, KeyHandle), HsmError>)
  {
    if id !in keys then Err(NotFound)
    else if keys[id].kind == Rsa2048 then Err(Unsupported)
    else
      var e := KeyEntry(keys[id].kind, material, Bumped(keys[id].version));
      Ok((keys[id := e], HandleOf(id, e)))
  }

  /** The key material an operation runs with; a handle of another version is refused. */
  function Unlocked(keys: Keys, h: KeyHandle, kind: KeyKind): (r: Result<seq<byte>, HsmError>)
  {
    if h.id !in keys then Err(NotFound)
    else if keys[h.id].version != h.version then Err(Unsupported)
    else if keys[h.id].kind != kind || kind == Rsa2048 then Err(Unsupported)
    else Ok(keys[h.id].material)
  }

  /** A rotation replaces the material of its key and of no other: the new handle, of the next version, works
      with the new material, and the old one is refused unless versions have saturated. */
  lemma RotationReplaces(keys: Keys, id: string, material: seq<byte>, other: string)
    ensures Rotated(keys, id, material).Ok? <==> id in keys && keys[id].kind != Rsa2048
    ensures Rotated(keys, id, material).Err? ==>
              Rotated(keys, id, material).error == if id in keys then Unsupported else NotFound
    ensures Rotated(keys, id, material).Ok? ==>
              var (ks, h) := Rotated(keys, id, material).value;
              var was := HandleOf(id, keys[id]);
              && h.id == id && h.kind == keys[id].kind
              && h.version == (if keys[id].version == U32_MAX then U32_MAX else keys[id].version + 1)
              && Unlocked(ks, h, h.kind) == Ok(material)
              && (Unlocked(ks, was, was.kind).Ok? <==> keys[id].version == U32_MAX)
              && (other != id ==> (other in ks <==> other in keys) && (other in keys ==> ks[other] == keys[other]))
  {
  }

  /** A generated key is the one there was, untouched, or a new one with the new material. */
  lemma GenerationIs(keys: Keys, id: string, kind: KeyKind, material: seq<byte>, other: string)
    requires kind != Rsa2048
    ensures Generated(keys, id, kind, material).Ok?
    ensures var (ks, h) := Generated(keys, id, kind, material).value;
            && h.id == id && id in ks && h == HandleOf(id, ks[id])
            && (id in keys ==> ks == keys)
            && (id !in keys ==> h.version == 1 && h.kind == kind && Unlocked(ks, h, kind) == Ok(material))
            && (other != id ==> (other in ks <==> other in keys) && (other in keys ==> ks[other] == keys[other]))
  {
  }

  class SoftwareHsm {
    var keys: Keys

    constructor ()
      ensures keys == map[]
    {
      keys := map[];
    }

    method GenerateKey(id: string, kind: KeyKind, material: seq<byte>) returns (r: Result<KeyHandle, HsmError>)
      modifies this
      ensures match Generated(old(keys), id, kind, material)
              case Ok((ks, h)) => keys == ks && r == Ok(h)
              case Err(e) => keys == old(keys) && r == Err(e)
    {
      if kind == Rsa2048 {
        return Err(Unsupported);
      }
      if id in keys {
        return Ok(KeyHandle(id, keys[id].version, keys[id].kind));
      }
      keys := keys[id := KeyEntry(kind, material, 1)];
      r := Ok(KeyHandle(id, 1, kind));
    }

    method RotateKey(id: string, material: seq<byte>) returns (r: Result<KeyHandle, HsmError>)
      modifies this
      ensures match Rotated(old(keys), id, material)
              case Ok((ks, h)) => keys == ks && r == Ok(h)
              case Err(e) => keys == old(keys) && r == Err(e)
    {
      if id !in keys {
        return Err(NotFound);
      }
      var kind := keys[id].kind;
      if kind == Rsa2048 {
        return Err(Unsupported);
      }
      var version := Bumped(keys[id].version);
      keys := keys[id := KeyEntry(kind, material, version)];
      r := Ok(KeyHandle(id, version, kind));
    }
  }

  /** The comparison of signatures that never stops early accepts exactly equal ones. */
  method SameSignature(expected: seq<bv8>, signature: seq<bv8>) returns (same: bool)
    ensures same <==> expected == signature
  {
    var diff: bv8 := 0;
    var min := if |expected| < |signature| then |expected| else |signature|;
    for i := 0 to min
      invariant diff == 0 <==> expected[..i] == signature[..i]
    {
      var x := expected[i] ^ signature[i];
      assert x == 0 <==> expected[i] == signature[i];
      assert diff | x == 0 <==> diff == 0 && x == 0;
      assert expected[..i + 1] == expected[..i] + [expected[i]];
      assert signature[..i + 1] == signature[..i] + [signature[i]];
      diff := diff | x;
    }
    assert |expected| == |signature| ==> expected[..min] == expected && signature[..min] == signature;
    same := diff | (if |expected| != |signature| then 1 else 0) == 0;
    assert diff | 0 == diff;
    assert diff | 1 != 0;
  }

  // ---- The manager ----

  /** The HSM, the two retained handles, and the handles of rotations between their two steps. */
  datatype Kdc = Kdc(keys: Keys, current: KeyHandle, previous: Option<KeyHandle>, pending: seq<KeyHandle>)

  /** The HSM step of a rotation, the promotion of a pending handle, or a rotation of another key. */
  datatype Event = Begin(material: seq<byte>) | Complete(i: nat) | Elsewhere(id: string, material: seq<byte>)

  /** The HSM holds a key that it can rotate. */
  predicate Managed(k: Kdc) {
    KRBTGT in k.keys && k.keys[KRBTGT].kind != Rsa2048
  }

  function Started(keys: Keys, material: seq<byte>): (r: Result<Kdc, HsmError>)
  {
    var (ks, h) :- Generated(keys, KRBTGT, Aes256, material);
    Ok(Kdc(ks, h, None, []))
  }

  function Step(k: Kdc, e: Event): (r: Kdc)
  {
    match e
    case Begin(material) =>
      (match Rotated(k.keys, KRBTGT, material)
       case Ok((ks, h)) => k.(keys := ks, pending := k.pending + [h])
       case Err(_) => k)
    case Complete(i) =>
      if i < |k.pending| then
        k.(current := k.pending[i], previous := Some(k.current), pending := k.pending[..i] + k.pending[i + 1..])
      else k
    case Elsewhere(id, material) =>
      if id == KRBTGT then k
      else
        match Rotated(k.keys, id, material)
        case Ok((ks, _)) => k.(keys := ks)
        case Err(_) => k
  }

  function Run(k: Kdc, es: seq<Event>): (r: Kdc)
  {
    if es == [] then k else Step(Run(k, es[..|es| - 1]), es[|es| - 1])
  }

  /** The promoted handles of a run, in the order of their promotion. */
  function Promoted(k: Kdc, es: seq<Event>): (hs: seq<KeyHandle>)
  {
    if es == [] then []
    else
      var before, e := Run(k, es[..|es| - 1]), es[|es| - 1];
      Promoted(k, es[..|es| - 1]) + Promotes(before, e)
  }

  /** The handle a step promotes, if it promotes one. */
  function Promotes(k: Kdc, e: Event): (hs: seq<KeyHandle>)
  {
    if e.Complete? && e.i < |k.pending| then [k.pending[e.i]] else []
  }

  function Begun(es: seq<Event>): (n: nat)
  {
    if es == [] then 0 else Begun(es[..|es| - 1]) + if es[|es| - 1].Begin? then 1 else 0
  }

  /** The version after `n` rotations of a key that started at version `v`. */
  function VersionAfter(v: u32, n: nat): (r: u32)
  {
    if v + n > U32_MAX then U32_MAX else v + n
  }

  /** The handle of rotation `n`, counted from the handle a manager started with. */
  function Nth(first: KeyHandle, n: nat): (h: KeyHandle)
  {
    KeyHandle(KRBTGT, VersionAfter(first.version, n), first.kind)
  }

  /** The handles of the first `n` rotations, in HSM order. */
  function Issued(first: KeyHandle, n: nat): (hs: seq<KeyHandle>)
    ensures |hs| == n && forall i | 0 <= i < n :: hs[i] == Nth(first, i + 1)
  {
    if n == 0 then [] else Issued(first, n - 1) + [Nth(first, n)]
  }

  /** A manager just created, over whatever rotatable key the HSM holds. */
  predicate New(k: Kdc) {
    && Managed(k) && k.current == HandleOf(KRBTGT, k.keys[KRBTGT]) && k.previous == None && k.pending == []
  }

  /** What a manager starts with: the key the HSM has, or a new one. It starts at version 1 exactly when there
      was none or it was at version 1, and its handle can encrypt exactly when there was none or it was an
      AES key. */
  lemma StartsNew(keys: Keys, material: seq<byte>)
    requires KRBTGT in keys ==> keys[KRBTGT].kind != Rsa2048
    ensures Started(keys, material).Ok?
    ensures var k := Started(keys, material).value;
            && New(k)
            && (k.current.version == 1 <==> KRBTGT !in keys || keys[KRBTGT].version == 1)
            && (Unlocked(k.keys, k.current, Aes256).Ok? <==> KRBTGT !in keys || keys[KRBTGT].kind == Aes256)
  {
  }

  function Last(hs: seq<KeyHandle>, default: KeyHandle): (h: KeyHandle)
  {
    if hs == [] then default else hs[|hs| - 1]
  }

  /** After `n` HSM steps and the promotions `hs`: the HSM's version counts the HSM steps, no handle is
      lost or promoted twice, and the manager retains exactly the last two promoted handles. */
  predicate Kept(first: KeyHandle, r: Kdc, hs: seq<KeyHandle>, n: nat) {
    && Managed(r) && HandleOf(KRBTGT, r.keys[KRBTGT]) == Nth(first, n)
    && multiset(hs) + multiset(r.pending) == multiset(Issued(first, n))
    && r.current == Last(hs, first)
    && r.previous == (if hs == [] then None else Some(Last(hs[..|hs| - 1], first)))
  }

  lemma NewKeeps(k: Kdc)
    requires New(k)
    ensures Kept(k.current, k, [], 0)
  {
    var none: seq<KeyHandle> := [];
    assert Issued(k.current, 0) == none && multiset(none) + multiset(none) == multiset(none);
  }

  lemma BeginKeeps(first: KeyHandle, a: Kdc, hs: seq<KeyHandle>, n: nat, material: seq<byte>)
    requires Kept(first, a, hs, n)
    ensures Kept(first, Step(a, Begin(material)), hs, n + 1)
    ensures Step(a, Begin(material)).pending == a.pending + [Nth(first, n + 1)]
  {
    var h := Nth(first, n + 1);
    assert Issued(first, n + 1) == Issued(first, n) + [h];
    assert multiset(a.pending + [h]) == multiset(a.pending) + multiset{h};
  }

  lemma Moved(hs: seq<KeyHandle>, pending: seq<KeyHandle>, i: nat)
    requires i < |pending|
    ensures multiset(hs + [pending[i]]) + multiset(pending[..i] + pending[i + 1..]) == multiset(hs) + multiset(pending)
  {
    var h, a, b := pending[i], pending[..i], pending[i + 1..];
    assert pending == a + ([h] + b);
    assert multiset(pending) == multiset(a) + (multiset([h]) + multiset(b));
    assert multiset(a + b) == multiset(a) + multiset(b);
    assert multiset(hs + [h]) == multiset(hs) + multiset([h]);
  }

  lemma CompleteKeeps(first: KeyHandle, a: Kdc, hs: seq<KeyHandle>, n: nat, i: nat)
    requires Kept(first, a, hs, n) && i < |a.pending|
    ensures Kept(first, Step(a, Complete(i)), hs + [a.pending[i]], n)
  {
    hide Issued, Last, Nth;
    Moved(hs, a.pending, i);
    var h := a.pending[i];
    assert (hs + [h])[..|hs|] == hs;
    LastOfAppend(hs, h, first);
  }

  lemma LastOfAppend(hs: seq<KeyHandle>, h: KeyHandle, first: KeyHandle)
    ensures Last(hs + [h], first) == h
  {
  }

  lemma ElsewhereKeeps(first: KeyHandle, a: Kdc, hs: seq<KeyHandle>, n: nat, id: string, material: seq<byte>)
    requires Kept(first, a, hs, n)
    ensures Kept(first, Step(a, Elsewhere(id, material)), hs, n)
  {
    hide Issued, Last;
  }

  lemma StepKeeps(first: KeyHandle, a: Kdc, hs: seq<KeyHandle>, n: nat, e: Event)
    requires Kept(first, a, hs, n)
    ensures Kept(first, Step(a, e), hs + Promotes(a, e), n + if e.Begin? then 1 else 0)
  {
    hide Kept;
    assert hs + [] == hs;
    match e
    case Begin(material) => BeginKeeps(first, a, hs, n, material);
    case Complete(i) =>
      if i < |a.pending| {
        CompleteKeeps(first, a, hs, n, i);
      }
    case Elsewhere(id, material) => ElsewhereKeeps(first, a, hs, n, id, material);
  }

  /** Every run of a new manager, however rotations overlap and whatever other keys do, keeps that. */
  lemma {:induction false} RunKeeps(k: Kdc, es: seq<Event>)
    requires New(k)
    ensures Kept(k.current, Run(k, es), Promoted(k, es), Begun(es))
    decreases |es|
  {
    hide Kept, Step, Promotes;
    if es == [] {
      NewKeeps(k);
    } else {
      var before := es[..|es| - 1];
      RunKeeps(k, before);
      StepKeeps(k.current, Run(k, before), Promoted(k, before), Begun(before), es[|es| - 1]);
    }
  }

  /** The HSM works with a handle of the krbtgt key exactly when its version is the newest. */
  /** The material of the last HSM step of a run, or what the key had before. */
  function NewestMaterial(k: Kdc, es: seq<Event>): (m: seq<byte>)
    requires Managed(k)
  {
    if es == [] then k.keys[KRBTGT].material
    else if es[|es| - 1].Begin? then es[|es| - 1].material
    else NewestMaterial(k, es[..|es| - 1])
  }

  /** In every state of every run the newest handle works with the material of the last HSM step. */
  lemma {:induction false} NewestUnlocks(k: Kdc, es: seq<Event>)
    requires New(k)
    ensures Unlocked(Run(k, es).keys, Nth(k.current, Begun(es)), k.current.kind) == Ok(NewestMaterial(k, es))
    decreases |es|
  {
    hide Kept, Promoted, Nth;
    RunKeeps(k, es);
    NewestHandle(k.current, Run(k, es), Promoted(k, es), Begun(es));
    if es != [] {
      var before := es[..|es| - 1];
      RunKeeps(k, before);
      NewestHandle(k.current, Run(k, before), Promoted(k, before), Begun(before));
      NewestUnlocks(k, before);
    }
  }

  lemma NewestHandle(first: KeyHandle, r: Kdc, hs: seq<KeyHandle>, n: nat)
    requires Kept(first, r, hs, n)
    ensures Managed(r) && Nth(first, n) == HandleOf(KRBTGT, r.keys[KRBTGT]) && r.keys[KRBTGT].kind == first.kind
  {
    hide Issued, Last;
  }

  lemma AcceptsNewestOnly(k: Kdc, h: KeyHandle)
    requires Managed(k) && h.id == KRBTGT
    ensures Unlocked(k.keys, h, k.keys[KRBTGT].kind).Ok? <==> h.version == k.keys[KRBTGT].version
  {
  }

  // ---- The schedule alone ----

  function Front(es: seq<Event>): (r: seq<Event>)
    requires es != []
    ensures |r| == |es| - 1
  {
    es[..|es| - 1]
  }

  /** How many rotations a schedule leaves between their two steps. */
  function Open(es: seq<Event>): (n: nat)
  {
    if es == [] then 0
    else
      match es[|es| - 1]
      case Begin(_) => Open(Front(es)) + 1
      case Complete(i) => if i < Open(Front(es)) then Open(Front(es)) - 1 else Open(Front(es))
      case Elsewhere(_, _) => Open(Front(es))
  }

  /** How many of them began before rotation `m`. */
  function Older(es: seq<Event>, m: nat): (n: nat)
  {
    if es == [] then 0
    else
      match es[|es| - 1]
      case Begin(_) => Older(Front(es), m) + if Begun(es) < m then 1 else 0
      case Complete(i) => if i < Older(Front(es), m) then Older(Front(es), m) - 1 else Older(Front(es), m)
      case Elsewhere(_, _) => Older(Front(es), m)
  }

  /** After the last HSM step, a promotion takes the last pending rotation, the only one from `m` on, while
      an older one is pending. */
  predicate Overtaken(es: seq<Event>, m: nat) {
    && es != [] && !es[|es| - 1].Begin?
    && (|| Overtaken(Front(es), m)
        || (var e, open := es[|es| - 1], Open(Front(es));
            e.Complete? && 0 < e.i && e.i + 1 == open && e.i == Older(Front(es), m)))
  }

  /** After the last HSM step, a promotion takes the last pending rotation while another is pending. */
  predicate TakesLast(es: seq<Event>) {
    && es != [] && !es[|es| - 1].Begin?
    && (|| TakesLast(Front(es))
        || (var e := es[|es| - 1]; e.Complete? && 0 < e.i && e.i + 1 == Open(Front(es))))
  }

  /** The numbers of the pending rotations, and of the one promoted last. */
  datatype Ledger = Ledger(pending: seq<nat>, last: nat)

  function Entered(l: Ledger, e: Event, n: nat): (r: Ledger)
  {
    match e
    case Begin(_) => l.(pending := l.pending + [n + 1])
    case Complete(i) =>
      if i < |l.pending| then Ledger(l.pending[..i] + l.pending[i + 1..], l.pending[i]) else l
    case Elsewhere(_, _) => l
  }

  function Numbers(es: seq<Event>): (l: Ledger)
  {
    if es == [] then Ledger([], 0) else Entered(Numbers(Front(es)), es[|es| - 1], Begun(Front(es)))
  }

  function Handles(first: KeyHandle, numbers: seq<nat>): (hs: seq<KeyHandle>)
    ensures |hs| == |numbers|
    ensures forall i | 0 <= i < |numbers| :: hs[i] == Nth(first, numbers[i])
  {
    seq(|numbers|, i requires 0 <= i < |numbers| => Nth(first, numbers[i]))
  }

  /** The state agrees with the numbers of its schedule. */
  predicate Numbered(first: KeyHandle, a: Kdc, l: Ledger) {
    a.pending == Handles(first, l.pending) && a.current == Nth(first, l.last)
  }

  lemma NewNumbered(k: Kdc)
    requires New(k)
    ensures Numbered(k.current, k, Ledger([], 0))
  {
    assert Handles(k.current, []) == [];
  }

  lemma StepNumbered(first: KeyHandle, a: Kdc, hs: seq<KeyHandle>, n: nat, e: Event, l: Ledger)
    requires Kept(first, a, hs, n) && Numbered(first, a, l)
    ensures Numbered(first, Step(a, e), Entered(l, e, n))
  {
    hide Kept, Nth;
    var pending := l.pending;
    match e {
      case Begin(material) =>
        BeginKeeps(first, a, hs, n, material);
        assert Handles(first, pending + [n + 1]) == Handles(first, pending) + [Nth(first, n + 1)];
      case Complete(i) =>
        if i < |pending| {
          assert Handles(first, pending[..i] + pending[i + 1..]) ==
                 Handles(first, pending)[..i] + Handles(first, pending)[i + 1..];
        }
      case Elsewhere(_, _) =>
    }
  }

  /** The run hands out the handles that the numbers of its schedule say. */
  lemma {:induction false} RunFollowsNumbers(k: Kdc, es: seq<Event>)
    requires New(k)
    ensures Numbered(k.current, Run(k, es), Numbers(es))
    decreases |es|
  {
    hide Kept, Step, Numbered, Entered, New;
    if es == [] {
      NewNumbered(k);
    } else {
      var before := Front(es);
      RunFollowsNumbers(k, before);
      RunKeeps(k, before);
      StepNumbered(k.current, Run(k, before), Promoted(k, before), Begun(before), es[|es| - 1], Numbers(before));
    }
  }

  /** The pending rotations stand in the order of their numbers: first the older ones, then the others. */
  predicate Split(pending: seq<nat>, older: nat, m: nat, n: nat) {
    && older <= |pending|
    && (forall i | 0 <= i < |pending| :: pending[i] <= n)
    && (forall i | 0 <= i < |pending| :: pending[i] < m <==> i < older)
  }

  lemma BeginSplit(pending: seq<nat>, older: nat, m: nat, n: nat)
    requires Split(pending, older, m, n)
    ensures Split(pending + [n + 1], older + if n + 1 < m then 1 else 0, m, n + 1)
    ensures older <= |pending| && (n < m ==> older == |pending|)
  {
    if n < m && |pending| > 0 {
      assert pending[|pending| - 1] < m;
    }
  }

  lemma NothingSplit(m: nat)
    ensures Split([], 0, m, 0)
  {
  }

  lemma CompleteSplit(pending: seq<nat>, older: nat, m: nat, n: nat, i: nat)
    requires Split(pending, older, m, n) && i < |pending|
    ensures Split(pending[..i] + pending[i + 1..], if i < older then older - 1 else older, m, n)
    ensures pending[i] <= n && older <= |pending|
  {
    var rest := pending[..i] + pending[i + 1..];
    assert forall j | 0 <= j < |rest| :: rest[j] == if j < i then pending[j] else pending[j + 1];
  }

  /** How the counts of a schedule go on. */
  lemma CountsStep(es: seq<Event>, m: nat)
    requires es != []
    ensures var before, e := Front(es), es[|es| - 1];
            var open, older, n := Open(before), Older(before, m), Begun(before);
            && Begun(es) == n + (if e.Begin? then 1 else 0)
            && Open(es) == (if e.Begin? then open + 1 else if e.Complete? && e.i < open then open - 1 else open)
            && Older(es, m) == (if e.Begin? then older + (if n + 1 < m then 1 else 0)
                                else if e.Complete? && e.i < older then older - 1 else older)
            && Numbers(es) == Entered(Numbers(before), e, n)
  {
    hide Entered;
  }

  lemma EnteredSplit(l: Ledger, older: nat, m: nat, n: nat, e: Event)
    requires Split(l.pending, older, m, n) && l.last <= n
    ensures var r := Entered(l, e, n);
            var n' := n + if e.Begin? then 1 else 0;
            var older' := if e.Begin? then older + (if n + 1 < m then 1 else 0)
                          else if e.Complete? && e.i < older then older - 1 else older;
            && Split(r.pending, older', m, n') && r.last <= n'
            && |r.pending| == (if e.Begin? then |l.pending| + 1
                               else if e.Complete? && e.i < |l.pending| then |l.pending| - 1 else |l.pending|)
  {
    hide Split;
    BeginSplit(l.pending, older, m, n);
    if e.Complete? && e.i < |l.pending| {
      CompleteSplit(l.pending, older, m, n, e.i);
    }
  }

  lemma {:induction false} OlderFirst(es: seq<Event>, m: nat)
    ensures Split(Numbers(es).pending, Older(es, m), m, Begun(es))
    ensures |Numbers(es).pending| == Open(es) && Numbers(es).last <= Begun(es)
    ensures Begun(es) < m ==> Older(es, m) == Open(es)
    decreases |es|
  {
    hide Split, Entered;
    if es == [] {
      NothingSplit(m);
    } else {
      OlderFirst(Front(es), m);
      hide Numbers, Older, Open, Begun;
      CountsStep(es, m);
      EnteredSplit(Numbers(Front(es)), Older(Front(es), m), m, Begun(Front(es)), es[|es| - 1]);
    }
    BeginSplit(Numbers(es).pending, Older(es, m), m, Begun(es));
  }

  /** While a rotation from `m` on is pending nothing is overtaken; once none is, either older ones were
      overtaken, or the last promotion was of a rotation from `m` on. */
  lemma {:induction false} OvertakenIs(es: seq<Event>, m: nat)
    requires m <= Begun(es)
    ensures Older(es, m) < Open(es) ==> !Overtaken(es, m)
    ensures Older(es, m) == Open(es) ==>
              if Overtaken(es, m) then Open(es) > 0 || Numbers(es).last < m else Open(es) == 0 && Numbers(es).last >= m
    decreases |es|
  {
    OlderFirst(es, m);
    if es != [] {
      var before, e := Front(es), es[|es| - 1];
      OlderFirst(before, m);
      if m <= Begun(before) {
        OvertakenIs(before, m);
      }
    }
  }

  lemma {:induction false} TakesLastIs(es: seq<Event>)
    ensures Open(es) <= Older(es, Begun(es)) + 1
    ensures TakesLast(es) <==> Overtaken(es, Begun(es))
    decreases |es|
  {
    OlderFirst(es, Begun(es));
    if es != [] {
      var before, e := Front(es), es[|es| - 1];
      OlderFirst(before, Begun(before));
      if e.Begin? {
        OlderFirst(before, Begun(es));
      } else {
        TakesLastIs(before);
        OvertakenIs(before, Begun(before));
      }
    }
  }

  /** The first rotation that carries the version of rotation `n`: that one, until versions saturate. */
  function FirstOfVersion(v: u32, n: nat): (m: nat)
    ensures m <= n
    ensures forall i | 0 <= i <= n :: VersionAfter(v, i) == VersionAfter(v, n) <==> i >= m
  {
    if v + n <= U32_MAX then n else U32_MAX - v
  }

  /** With no rotation under way, the HSM accepts the current handle exactly when the schedule did not let
      the newest version be overtaken: when, after the last HSM step, no promotion took the last pending
      rotation while another was pending. Once versions saturate, rotations of the same version count as
      one. */
  lemma QuiescentCurrent(k: Kdc, es: seq<Event>)
    requires New(k) && Open(es) == 0
    ensures Run(k, es).pending == []
    ensures Unlocked(Run(k, es).keys, Run(k, es).current, k.current.kind).Ok? <==>
            !Overtaken(es, FirstOfVersion(k.current.version, Begun(es)))
    ensures k.current.version + Begun(es) <= U32_MAX ==>
              (Unlocked(Run(k, es).keys, Run(k, es).current, k.current.kind).Ok? <==> !TakesLast(es))
  {
    hide Run, Promoted, Begun, Overtaken, TakesLast, Open, Older, Numbers, Unlocked, VersionAfter;
    var v, n := k.current.version, Begun(es);
    var m := FirstOfVersion(v, n);
    RunKeeps(k, es);
    RunFollowsNumbers(k, es);
    OlderFirst(es, m);
    OvertakenIs(es, m);
    TakesLastIs(es);
    AcceptsNewestOnly(Run(k, es), Run(k, es).current);
    assert VersionAfter(v, Numbers(es).last) == VersionAfter(v, n) <==> Numbers(es).last >= m;
  }

  /** Promotions in the order of the HSM steps, one pending handle after the other. */
  predicate InOrder(es: seq<Event>) {
    forall e | e in es && e.Complete? :: e.i == 0
  }

  lemma IssuedStep(first: KeyHandle, n: nat)
    ensures Issued(first, n + 1) == Issued(first, n) + [Nth(first, n + 1)]
  {
    hide Nth;
  }

  lemma InOrderBegin(first: KeyHandle, a: Kdc, hs: seq<KeyHandle>, n: nat, material: seq<byte>)
    requires Kept(first, a, hs, n) && hs + a.pending == Issued(first, n)
    ensures hs + Step(a, Begin(material)).pending == Issued(first, n + 1)
  {
    hide Kept, Issued, Nth, Step;
    BeginKeeps(first, a, hs, n, material);
    IssuedStep(first, n);
    var h := Nth(first, n + 1);
    assert hs + (a.pending + [h]) == (hs + a.pending) + [h];
  }

  lemma InOrderStep(first: KeyHandle, a: Kdc, hs: seq<KeyHandle>, n: nat, e: Event)
    requires Kept(first, a, hs, n) && hs + a.pending == Issued(first, n) && (e.Complete? ==> e.i == 0)
    ensures (hs + Promotes(a, e)) + Step(a, e).pending == Issued(first, n + if e.Begin? then 1 else 0)
  {
    hide Kept, Issued, Nth;
    assert hs + [] == hs;
    match e
    case Begin(material) =>
      InOrderBegin(first, a, hs, n, material);
    case Complete(i) =>
      if a.pending != [] {
        assert hs + a.pending == (hs + [a.pending[0]]) + (a.pending[..0] + a.pending[1..]);
      }
    case Elsewhere(id, material) =>
  }

  lemma {:induction false} InOrderPromotes(k: Kdc, es: seq<Event>)
    requires New(k) && InOrder(es)
    ensures Promoted(k, es) + Run(k, es).pending == Issued(k.current, Begun(es))
    decreases |es|
  {
    if es != [] {
      hide Kept, Step, Promotes, Issued;
      var before, e := es[..|es| - 1], es[|es| - 1];
      assert e in es;
      InOrderPromotes(k, before);
      RunKeeps(k, before);
      InOrderStep(k.current, Run(k, before), Promoted(k, before), Begun(before), e);
    }
  }

  /** Rotations that promote in order, serial ones among them, leave the newest version current and the
      one before it previous, once none is under way: the key version number is the first one plus the
      number of rotations. */
  lemma InOrderQuiescent(k: Kdc, es: seq<Event>)
    requires New(k) && InOrder(es) && Run(k, es).pending == []
    ensures var r, n := Run(k, es), Begun(es);
            && r.current == Nth(k.current, n)
            && r.previous == (if n == 0 then None else Some(Nth(k.current, n - 1)))
            && Unlocked(r.keys, r.current, k.current.kind) == Ok(NewestMaterial(k, es))
  {
    hide Run, Promoted, Begun, NewestMaterial;
    InOrderPromotes(k, es);
    NewestUnlocks(k, es);
    RunKeeps(k, es);
    var hs, n := Promoted(k, es), Begun(es);
    assert hs + [] == hs;
    AcceptsNewestOnly(Run(k, es), Run(k, es).current);
  }

  /** A handle once issued is refused from the next HSM step on, exactly until versions saturate. */
  lemma StaleRefused(k: Kdc, es: seq<Event>, i: nat)
    requires New(k) && i <= Begun(es)
    ensures Unlocked(Run(k, es).keys, Nth(k.current, i), k.current.kind).Ok? <==>
            i == Begun(es) || k.current.version + i >= U32_MAX
  {
    hide Run, Begun;
    RunKeeps(k, es);
    AcceptsNewestOnly(Run(k, es), Nth(k.current, i));
  }

  /** Two rotations that promote in the opposite order leave the manager with a handle the HSM refuses,
      and with the version number going backwards. */
  lemma OverlapGoesBack(k: Kdc, a: seq<byte>, b: seq<byte>)
    requires New(k) && k.current.version + 2 <= U32_MAX
    ensures var r := Run(k, [Begin(a), Begin(b), Complete(1), Complete(0)]);
            var v := k.current.version;
            && r.pending == [] && KRBTGT in r.keys && r.keys[KRBTGT].version == v + 2
            && r.current.version == v + 1 && r.previous.Some? && r.previous.value.version == v + 2
            && Unlocked(r.keys, r.current, k.current.kind).Err?
  {
    var es := [Begin(a), Begin(b), Complete(1), Complete(0)];
    assert es[..3] == [Begin(a), Begin(b), Complete(1)] && es[..3][..2] == [Begin(a), Begin(b)];
    assert es[..3][..2][..1] == [Begin(a)] && es[..3][..2][..1][..0] == [];
    var k1 := Step(k, Begin(a));
    var k2 := Step(k1, Begin(b));
    var k3 := Step(k2, Complete(1));
    assert Run(k, es[..3][..2][..1]) == k1;
    assert Run(k, es[..3][..2]) == k2;
    assert Run(k, es[..3]) == k3;
  }

  class KrbtgtManager {
    const hsm: SoftwareHsm
    var current: KeyHandle
    var previous: Option<KeyHandle>
    ghost var pending: seq<KeyHandle>

    constructor (hsm: SoftwareHsm, current: KeyHandle)
      ensures this.hsm == hsm && this.current == current && previous == None && pending == []
    {
      this.hsm, this.current, previous, pending := hsm, current, None, [];
    }

    /** Generates the key, or takes the one the HSM has. */
    static method Create(hsm: SoftwareHsm, material: seq<byte>) returns (r: Result<KrbtgtManager, HsmError>)
      modifies hsm
      ensures r.Ok? ==> fresh(r.value) && Started(old(hsm.keys), material) == Ok(r.value.Now())
      ensures r.Err? ==> Started(old(hsm.keys), material).Err? && hsm.keys == old(hsm.keys)
    {
      var h :- hsm.GenerateKey(KRBTGT, Aes256, material);
      var m := new KrbtgtManager(hsm, h);
      r := Ok(m);
    }

    ghost function Now(): (k: Kdc)
      reads this, hsm
    {
      Kdc(hsm.keys, current, previous, pending)
    }

    /** The first half of a rotation, before the lock is taken. */
    method BeginRotation(material: seq<byte>) returns (r: Result<KeyHandle, HsmError>)
      modifies hsm, this`pending
      ensures Now() == Step(old(Now()), Begin(material))
      ensures r.Ok? ==> pending == old(pending) + [r.value]
      ensures r.Err? ==> pending == old(pending)
    {
      r := hsm.RotateKey(KRBTGT, material);
      if r.Ok? {
        pending := pending + [r.value];
      }
    }

    /** The second half, under the lock. */
    method Promote(h: KeyHandle, ghost i: nat)
      requires i < |pending| && pending[i] == h
      modifies this
      ensures Now() == Step(old(Now()), Complete(i))
    {
      previous := Some(current);
      current := h;
      pending := pending[..i] + pending[i + 1..];
    }

    /** A rotation whose two halves nothing comes between; others may be between theirs. */
    method Rotate(material: seq<byte>) returns (r: Result<(), HsmError>)
      modifies this, hsm
      ensures r.Ok? ==> Now() == Step(Step(old(Now()), Begin(material)), Complete(|old(pending)|))
      ensures r.Err? ==> Now() == old(Now())
      ensures pending == old(pending)
    {
      ghost var before := pending;
      var h :- BeginRotation(material);
      Promote(h, |before|);
      r := Ok(());
    }
  }
}
