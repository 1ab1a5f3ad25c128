// The read, write and certify locks of a multi-version record.
module MvLock {

  /** The lock's three fields, and for the proofs who holds what. */
  datatype Lock = Lock(readCount: nat, isWriting: bool, isCertifying: bool, readers: multiset<nat>,
      writers: multiset<nat>, certifiers: multiset<nat>)

  datatype Step =
    | Read(t: nat) | ReleaseRead(t: nat)
    | Write(t: nat) | ReleaseWrite(t: nat)
    | Certify(t: nat) | ReleaseCertify(t: nat)

  /** Only holders release, and only the writer asks for the certify lock. */
  predicate Enabled(l: Lock, e: Step) {
    match e
    case Read(_) => true
    case ReleaseRead(t) => t in l.readers
    case Write(_) => true
    case ReleaseWrite(t) => t in l.writers
    case Certify(t) => t in l.writers
    case ReleaseCertify(t) => t in l.certifiers
  }

  /** The new state, and whether the request was granted. */
  function Do(l: Lock, e: Step): (Lock, bool)
    requires Enabled(l, e) && (e.ReleaseRead? ==> l.readCount > 0)
  {
    match e
    case Read(t) =>
      if l.isCertifying then (l, false)
        else (l.(readCount := l.readCount + 1, readers := l.readers + multiset{t}), true)
    case ReleaseRead(t) => (l.(readCount := l.readCount - 1, readers := l.readers - multiset{t}), true)
    case Write(t) =>
      if l.isWriting || l.isCertifying then (l, false)
        else (l.(isWriting := true, writers := l.writers + multiset{t}), true)
    case ReleaseWrite(t) => (l.(isWriting := false, writers := l.writers - multiset{t}), true)
    case Certify(t) =>
      if l.readCount != 0 then (l, false)
      else (l.(isWriting := false, isCertifying := true,
        writers := l.writers - multiset{t}, certifiers := l.certifiers + multiset{t}), true)
    case ReleaseCertify(t) => (l.(isCertifying := false, certifiers := l.certifiers - multiset{t}), true)
  }

  /** The fields agree with the holders; one writer or certifier at most, and a certifier alone. */
  predicate Inv(l: Lock) {
    && l.readCount == |l.readers| && (l.isWriting <==> |l.writers| == 1) && (l.isCertifying <==> |l.certifiers| == 1)
    && |l.writers| + |l.certifiers| <= 1 && (l.isCertifying ==> l.readCount == 0)
  }

  lemma Member(m: multiset<nat>, t: nat)
    requires t in m
    ensures |m| >= 1 && |m - multiset{t}| == |m| - 1
  {
    assert m == (m - multiset{t}) + multiset{t};
  }

  /** Every step keeps this, and what the source asserts of its callers holds. */
  lemma StepKeeps(l: Lock, e: Step)
    requires Inv(l) && Enabled(l, e)
    ensures e.ReleaseRead? ==> l.readCount > 0
    ensures e.ReleaseWrite? || e.Certify? ==> l.isWriting
    ensures e.Certify? ==> !l.isCertifying
    ensures e.ReleaseCertify? ==> l.isCertifying
    ensures Inv(Do(l, e).0)
  {
    match e
    case ReleaseRead(t) => Member(l.readers, t);
    case ReleaseWrite(t) => Member(l.writers, t);
    case Certify(t) => Member(l.writers, t);
    case ReleaseCertify(t) => Member(l.certifiers, t);
    case _ =>
  }

  /** Who gets what, in terms of the holders alone: a reader is refused only by a certifier, a writer by
      another writer or a certifier, a certifier by a reader. A grant adds the thread to the holders, a
      release takes it out, a refusal leaves everything as it is. */
  lemma GrantsExactly(l: Lock, e: Step)
    requires Inv(l) && Enabled(l, e) && (e.ReleaseRead? ==> l.readCount > 0)
    ensures var (r, granted) := Do(l, e);
      && (e.Read? ==> (granted <==> l.certifiers == multiset{}))
      && (e.Write? ==> (granted <==> l.writers == multiset{} && l.certifiers == multiset{}))
      && (e.Certify? ==> (granted <==> l.readers == multiset{}))
      && (e.ReleaseRead? || e.ReleaseWrite? || e.ReleaseCertify? ==> granted)
    ensures var (r, granted) := Do(l, e); if !granted then r == l else
      && r.readers == (match e case Read(t) => l.readers + multiset{t}
        case ReleaseRead(t) => l.readers - multiset{t} case _ => l.readers)
      && r.writers == (match e case Write(t) => l.writers + multiset{t}
        case ReleaseWrite(t) => l.writers - multiset{t} case Certify(t) => l.writers - multiset{t} case _ => l.writers)
      && r.certifiers == (match e case Certify(t) => l.certifiers + multiset{t}
        case ReleaseCertify(t) => l.certifiers - multiset{t} case _ => l.certifiers)
  {
    Nobody(l.readers);
    Nobody(l.writers);
    Nobody(l.certifiers);
  }

  predicate Run(ls: seq<Lock>, es: seq<Step>) {
    && |ls| == |es| + 1 && ls[0] == Lock(0, false, false, multiset{}, multiset{}, multiset{})
    && forall k | 0 <= k < |es| ::
       Enabled(ls[k], es[k]) && ((es[k].ReleaseRead? ==> ls[k].readCount > 0) ==> ls[k + 1] == Do(ls[k], es[k]).0)
  }

  lemma {:induction false} RunKeeps(ls: seq<Lock>, es: seq<Step>, k: nat)
    requires Run(ls, es) && k <= |es|
    ensures Inv(ls[k])
  {
    if k > 0 {
      RunKeeps(ls, es, k - 1);
      StepKeeps(ls[k - 1], es[k - 1]);
    }
  }

  /** In no run is a record certified while anyone reads it, or written by two. */
  lemma CertifyAlone(ls: seq<Lock>, es: seq<Step>, k: nat, t: nat, u: nat)
    requires Run(ls, es) && k <= |es|
    ensures t in ls[k].certifiers ==> u !in ls[k].readers && u !in ls[k].writers && (u in ls[k].certifiers ==> u == t)
    ensures t in ls[k].writers && u in ls[k].writers ==> t == u
  {
    RunKeeps(ls, es, k);
    var l := ls[k];
    Nobody(l.readers);
    Nobody(l.writers);
    if t in l.certifiers {
      Member(l.certifiers, t);
      assert l.readers == multiset{} && l.writers == multiset{};
      OnlyOne(ls[k].certifiers, t, u);
    }
    if t in l.writers { OnlyOne(l.writers, t, u); }
  }

  lemma Nobody(m: multiset<nat>)
    ensures |m| == 0 <==> m == multiset{}
  {}

  lemma OnlyOne(m: multiset<nat>, t: nat, u: nat)
    requires t in m && |m| <= 1
    ensures u in m ==> u == t
  {
    Member(m, t);
    Nobody(m - multiset{t});
    assert u != t ==> (m - multiset{t})[u] == m[u];
  }

  class MvLockContent {
    var readCount: nat
    var isWriting: bool
    var isCertifying: bool
    ghost var readers: multiset<nat>
    ghost var writers: multiset<nat>
    ghost var certifiers: multiset<nat>

    ghost function Now(): Lock
      reads this
    {
      Lock(readCount, isWriting, isCertifying, readers, writers, certifiers)
    }

    method AcquireReadLock(t: nat) returns (rt: bool)
      modifies this
      ensures (Now(), rt) == Do(old(Now()), Read(t))
      ensures old(Inv(Now())) ==> Inv(Now()) && (rt <==> old(certifiers) == multiset{})
      ensures readers == if rt then old(readers) + multiset{t} else old(readers)
    {
      ghost var l := Now();
      if Inv(l) {
        StepKeeps(l, Read(t));
        GrantsExactly(l, Read(t));
      }
      rt := true;
      if isCertifying {
        rt := false;
      } else {
        readCount := readCount + 1;
        readers := readers + multiset{t};
      }
    }

    method ReleaseReadLock(t: nat)
      requires Inv(Now()) && t in readers
      modifies this
      ensures old(readCount) > 0 && Now() == Do(old(Now()), ReleaseRead(t)).0 && Inv(Now())
    {
      StepKeeps(Now(), ReleaseRead(t));
      readCount := readCount - 1;
      readers := readers - multiset{t};
    }

    method AcquireWriteLock(t: nat) returns (rt: bool)
      modifies this
      ensures (Now(), rt) == Do(old(Now()), Write(t))
      ensures old(Inv(Now())) ==>
        Inv(Now()) && (rt <==> old(writers) == multiset{} && old(certifiers) == multiset{})
      ensures writers == if rt then old(writers) + multiset{t} else old(writers)
    {
      ghost var l := Now();
      if Inv(l) {
        StepKeeps(l, Write(t));
        GrantsExactly(l, Write(t));
      }
      rt := true;
      if isWriting || isCertifying {
        rt := false;
      } else {
        isWriting := true;
        writers := writers + multiset{t};
      }
    }

    method ReleaseWriteLock(t: nat)
      requires Inv(Now()) && t in writers
      modifies this
      ensures old(isWriting) && Now() == Do(old(Now()), ReleaseWrite(t)).0 && Inv(Now())
    {
      StepKeeps(Now(), ReleaseWrite(t));
      isWriting := false;
      writers := writers - multiset{t};
    }

    method AcquireCertifyLock(t: nat) returns (rt: bool)
      requires Inv(Now()) && t in writers
      modifies this
      ensures old(isWriting) && !old(isCertifying) && (Now(), rt) == Do(old(Now()), Certify(t)) && Inv(Now())
      ensures rt <==> old(readers) == multiset{}
      ensures certifiers == if rt then old(certifiers) + multiset{t} else old(certifiers)
    {
      StepKeeps(Now(), Certify(t));
      GrantsExactly(Now(), Certify(t));
      rt := true;
      if readCount != 0 {
        rt := false;
      } else {
        isWriting := false;
        isCertifying := true;
        writers := writers - multiset{t};
        certifiers := certifiers + multiset{t};
      }
    }

    method ReleaseCertifyLock(t: nat)
      requires Inv(Now()) && t in certifiers
      modifies this
      ensures old(isCertifying) && Now() == Do(old(Now()), ReleaseCertify(t)).0 && Inv(Now())
    {
      StepKeeps(Now(), ReleaseCertify(t));
      isCertifying := false;
      certifiers := certifiers - multiset{t};
    }
  }
}
