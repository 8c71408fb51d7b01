/** A least-recently-used cache as a list, most recent entry first, and what that
    list says about the history of requests. */
module LruSpec {
  import opened Wrappers

  datatype Entry<T> = Entry(id: int, item: T)

  type Listing<T> = seq<Entry<T>>

  ghost predicate Has<T>(l: Listing<T>, id: int) {
    exists e :: e in l && e.id == id
  }

  function Lookup<T>(l: Listing<T>, id: int): Option<T> {
    if l == [] then None else if l[0].id == id then Some(l[0].item) else Lookup(l[1..], id)
  }

  function Without<T>(l: Listing<T>, id: int): Listing<T> {
    if l == [] then [] else if l[0].id == id then Without(l[1..], id) else [l[0]] + Without(l[1..], id)
  }

  /** A hit moves its entry to the front; a miss changes nothing. */
  function Touched<T>(l: Listing<T>, id: int): Listing<T> {
    match Lookup(l, id)
    case Some(item) => [Entry(id, item)] + Without(l, id)
    case None => l
  }

  function Pushed<T>(l: Listing<T>, id: int, item: T): Listing<T> {
    [Entry(id, item)] + Without(l, id)
  }

  /** Beyond the capacity the last entry goes. */
  function Stored<T>(l: Listing<T>, id: int, item: T, maxSize: nat): Listing<T> {
    var m := Pushed(l, id, item);
    if |m| > maxSize then m[..|m| - 1] else m
  }

  ghost predicate NoDuplicates<T>(l: Listing<T>) {
    l == [] || ((forall e :: e in l[1..] ==> e.id != l[0].id) && NoDuplicates(l[1..]))
  }

  // ---- runs -----------------------------------------------------------------

  datatype Request<T> = Clear | Get(id: int) | Put(id: int, item: T)

  function Apply<T>(l: Listing<T>, q: Request<T>, maxSize: nat): Listing<T> {
    match q
    case Clear => []
    case Get(id) => Touched(l, id)
    case Put(id, item) => Stored(l, id, item, maxSize)
  }

  function After<T>(qs: seq<Request<T>>, maxSize: nat): Listing<T> {
    if qs == [] then [] else Apply(After(qs[..|qs| - 1], maxSize), qs[|qs| - 1], maxSize)
  }

  predicate Mentions<T>(q: Request<T>, id: int) {
    !q.Clear? && q.id == id
  }

  /** The time of the last request that names `id`, -1 if there is none. */
  function LastUse<T>(qs: seq<Request<T>>, id: int): (t: int)
    ensures -1 <= t < |qs|
  {
    if qs == [] then -1
    else if Mentions(qs[|qs| - 1], id) then |qs| - 1
    else LastUse(qs[..|qs| - 1], id)
  }

  /** The item of the last Put that names `id`. */
  function LastPut<T>(qs: seq<Request<T>>, id: int): Option<T> {
    if qs == [] then None
    else
      var q := qs[|qs| - 1];
      if q.Put? && q.id == id then Some(q.item) else LastPut(qs[..|qs| - 1], id)
  }

  // ---- lists ----------------------------------------------------------------

  lemma SplitHead<T>(l: Listing<T>)
    requires l != []
    ensures forall e :: e in l <==> e == l[0] || e in l[1..]
  {
    assert l == [l[0]] + l[1..];
  }

  lemma {:induction false} WithoutMembers<T>(l: Listing<T>, id: int)
    ensures forall e :: e in Without(l, id) ==> e in l && e.id != id
    ensures forall e :: e in l && e.id != id ==> e in Without(l, id)
    ensures |Without(l, id)| <= |l|
    ensures Has(l, id) ==> |Without(l, id)| < |l|
    ensures !Has(l, id) ==> Without(l, id) == l
  {
    if l != [] {
      SplitHead(l);
      WithoutMembers(l[1..], id);
    }
  }

  lemma {:induction false} LookupMeaning<T>(l: Listing<T>, id: int)
    ensures Lookup(l, id).Some? <==> Has(l, id)
    ensures Lookup(l, id).Some? ==> Entry(id, Lookup(l, id).value) in l
  {
    if l != [] {
      SplitHead(l);
      LookupMeaning(l[1..], id);
    }
  }

  /** Entries in strict order of last use, the latest first. */
  ghost predicate InOrder<T>(l: Listing<T>, qs: seq<Request<T>>) {
    l == [] ||
    (&& LastUse(qs, l[0].id) >= 0
     && (forall e :: e in l[1..] ==> LastUse(qs, l[0].id) > LastUse(qs, e.id))
     && InOrder(l[1..], qs))
  }

  ghost predicate Current<T>(l: Listing<T>, qs: seq<Request<T>>) {
    forall e :: e in l ==> LastPut(qs, e.id) == Some(e.item)
  }

  lemma {:induction false} OrderNoDuplicates<T>(l: Listing<T>, qs: seq<Request<T>>)
    requires InOrder(l, qs)
    ensures NoDuplicates(l)
  {
    if l != [] {
      OrderNoDuplicates(l[1..], qs);
    }
  }

  lemma {:induction false} WithoutInOrder<T>(l: Listing<T>, id: int, qs: seq<Request<T>>)
    requires InOrder(l, qs)
    ensures InOrder(Without(l, id), qs)
  {
    hide LastUse;
    if l != [] {
      WithoutMembers(l[1..], id);
      WithoutInOrder(l[1..], id, qs);
    }
  }

  lemma LastUseOfOther<T>(qs: seq<Request<T>>, q: Request<T>, id: int)
    ensures LastUse(qs + [q], id) == if Mentions(q, id) then |qs| else LastUse(qs, id)
  {
    assert (qs + [q])[..|qs|] == qs;
  }

  /** A request leaves the last uses of the entries it does not name alone. */
  lemma {:induction false} OthersKeepOrder<T>(l: Listing<T>, qs: seq<Request<T>>, q: Request<T>)
    requires InOrder(l, qs)
    requires forall e :: e in l ==> !Mentions(q, e.id)
    ensures InOrder(l, qs + [q])
  {
    hide LastUse;
    if l != [] {
      SplitHead(l);
      OthersKeepOrder(l[1..], qs, q);
      LastUseOfOther(qs, q, l[0].id);
      forall e | e in l[1..] ensures LastUse(qs + [q], l[0].id) > LastUse(qs + [q], e.id) {
        LastUseOfOther(qs, q, e.id);
      }
    }
  }

  lemma FrontInOrder<T>(l: Listing<T>, qs: seq<Request<T>>, q: Request<T>, item: T)
    requires InOrder(l, qs) && !q.Clear?
    ensures InOrder([Entry(q.id, item)] + Without(l, q.id), qs + [q])
  {
    hide LastUse;
    WithoutInOrder(l, q.id, qs);
    WithoutMembers(l, q.id);
    var rest := Without(l, q.id);
    OthersKeepOrder(rest, qs, q);
    LastUseOfOther(qs, q, q.id);
    forall e | e in rest ensures LastUse(qs + [q], e.id) < |qs| {
      LastUseOfOther(qs, q, e.id);
    }
    assert ([Entry(q.id, item)] + rest)[1..] == rest;
  }

  lemma {:induction false} PrefixInOrder<T>(l: Listing<T>, n: nat, qs: seq<Request<T>>)
    requires InOrder(l, qs) && n <= |l|
    ensures InOrder(l[..n], qs)
    ensures n < |l| ==> forall e :: e in l[..n] ==> LastUse(qs, e.id) > LastUse(qs, l[n].id)
  {
    hide LastUse;
    if n != 0 {
      PrefixInOrder(l[1..], n - 1, qs);
      assert l[..n][1..] == l[1..][..n - 1];
      SplitHead(l[..n]);
      assert n < |l| ==> l[n] == l[1..][n - 1];
    }
  }

  lemma LastPutOfOther<T>(qs: seq<Request<T>>, q: Request<T>, id: int)
    ensures LastPut(qs + [q], id) == if q.Put? && q.id == id then Some(q.item) else LastPut(qs, id)
  {
    assert (qs + [q])[..|qs|] == qs;
  }

  lemma FrontCurrent<T>(l: Listing<T>, qs: seq<Request<T>>, q: Request<T>, item: T)
    requires Current(l, qs) && !q.Clear?
    requires if q.Put? then q.item == item else Entry(q.id, item) in l
    ensures Current([Entry(q.id, item)] + Without(l, q.id), qs + [q])
  {
    hide LastPut;
    WithoutMembers(l, q.id);
    forall e | e in [Entry(q.id, item)] + Without(l, q.id) ensures LastPut(qs + [q], e.id) == Some(e.item) {
      LastPutOfOther(qs, q, e.id);
    }
  }

  lemma GetKeeps<T>(l: Listing<T>, qs: seq<Request<T>>, q: Request<T>)
    requires InOrder(l, qs) && Current(l, qs) && q.Get?
    ensures InOrder(Touched(l, q.id), qs + [q]) && Current(Touched(l, q.id), qs + [q])
    ensures |Touched(l, q.id)| <= |l|
  {
    LookupMeaning(l, q.id);
    WithoutMembers(l, q.id);
    hide InOrder, Current, Lookup, LastUse, LastPut;
    if Lookup(l, q.id).Some? {
      FrontInOrder(l, qs, q, Lookup(l, q.id).value);
      FrontCurrent(l, qs, q, Lookup(l, q.id).value);
    } else {
      OthersKeepOrder(l, qs, q);
      MissCurrent(l, qs, q);
    }
  }

  lemma PutKeeps<T>(l: Listing<T>, qs: seq<Request<T>>, q: Request<T>, maxSize: nat)
    requires InOrder(l, qs) && Current(l, qs) && |l| <= maxSize && q.Put?
    ensures var r := Stored(l, q.id, q.item, maxSize);
            InOrder(r, qs + [q]) && Current(r, qs + [q]) && |r| <= maxSize
  {
    hide InOrder, LastPut, LastUse;
    FrontInOrder(l, qs, q, q.item);
    FrontCurrent(l, qs, q, q.item);
    WithoutMembers(l, q.id);
    var m := Pushed(l, q.id, q.item);
    hide Pushed;
    if |m| > maxSize {
      PrefixInOrder(m, |m| - 1, qs + [q]);
      assert forall e :: e in m[..|m| - 1] ==> e in m;
    }
  }

  lemma StepKeeps<T>(l: Listing<T>, qs: seq<Request<T>>, q: Request<T>, maxSize: nat)
    requires InOrder(l, qs) && Current(l, qs) && |l| <= maxSize
    ensures var r := Apply(l, q, maxSize);
            InOrder(r, qs + [q]) && Current(r, qs + [q]) && |r| <= maxSize
  {
    match q
    case Clear =>
    case Get(id) =>
      GetKeeps(l, qs, q);
    case Put(id, item) =>
      PutKeeps(l, qs, q, maxSize);
  }

  lemma MissCurrent<T>(l: Listing<T>, qs: seq<Request<T>>, q: Request<T>)
    requires Current(l, qs) && q.Get?
    ensures Current(l, qs + [q])
  {
    hide LastPut;
    forall e | e in l ensures LastPut(qs + [q], e.id) == Some(e.item) {
      LastPutOfOther(qs, q, e.id);
    }
  }

  /** After any run the listing is in strict order of last use, without duplicates,
      within the capacity, and every entry is what was last put under its id. */
  lemma {:induction false} RunKeepsOrder<T>(qs: seq<Request<T>>, maxSize: nat)
    ensures InOrder(After(qs, maxSize), qs) && NoDuplicates(After(qs, maxSize))
    ensures Current(After(qs, maxSize), qs) && |After(qs, maxSize)| <= maxSize
  {
    if qs != [] {
      var before, q := qs[..|qs| - 1], qs[|qs| - 1];
      RunKeepsOrder(before, maxSize);
      hide InOrder, Current, Apply, NoDuplicates;
      StepKeeps(After(before, maxSize), before, q, maxSize);
      assert before + [q] == qs;
      OrderNoDuplicates(After(qs, maxSize), qs);
    }
  }

  /** What Put throws out of a full cache was used before everything that stays. */
  lemma EvictsLeastRecent<T>(qs: seq<Request<T>>, id: int, item: T, maxSize: nat)
    requires |Pushed(After(qs, maxSize), id, item)| > maxSize
    ensures var m := Pushed(After(qs, maxSize), id, item);
            var out, now := m[|m| - 1], qs + [Put(id, item)];
            && (forall e :: e in After(now, maxSize) ==> LastUse(now, e.id) > LastUse(now, out.id))
            && After(now, maxSize) + [out] == m
  {
    var q: Request<T> := Put(id, item);
    var now := qs + [q];
    AfterAppend(qs, q, maxSize);
    RunKeepsOrder(qs, maxSize);
    hide After, InOrder, LastUse;
    FrontInOrder(After(qs, maxSize), qs, q, item);
    var m := Pushed(After(qs, maxSize), id, item);
    PrefixInOrder(m, |m| - 1, now);
  }

  lemma AfterAppend<T>(qs: seq<Request<T>>, q: Request<T>, maxSize: nat)
    ensures After(qs + [q], maxSize) == Apply(After(qs, maxSize), q, maxSize)
  {
    assert (qs + [q])[..|qs|] == qs;
  }
}
