/** The site registry: collection names bound to access points.

    Access points are compared by instance, so each one is an opaque
    identifier `ApId`. Registration is a gate on two uniqueness conditions:
    a name is bound at most once, and an access point is bound under at most
    one name. Both failures are Python `RuntimeError`s; the model tells them
    apart and checks the name first. */
module SiteRegistry {
  import opened Wrappers

  /** The identity of an access-point instance. */
  type ApId = nat

  /** Why a registration was refused (both raise `RuntimeError`). */
  datatype RegisterError = NameTaken(name: string) | AccessPointTaken(accessPoint: ApId)

  datatype Site = Site(accessPoints: map<string, ApId>)

  /** A site as built: no bindings. */
  function NewSite(): (site: Site)
    ensures |site.accessPoints| == 0
  {
    Site(map[])
  }

  /** No access point is bound under two names. */
  ghost predicate Injective(m: map<string, ApId>)
  {
    forall n1, n2 :: n1 in m && n2 in m && n1 != n2 ==> m[n1] != m[n2]
  }

  /** `register(name, access_point)`. */
  function Register(site: Site, name: string, ap: ApId): (r: Result<Site, RegisterError>)
    ensures r.Success? <==> name !in site.accessPoints && ap !in site.accessPoints.Values
    ensures r.Success? ==> r.value.accessPoints == site.accessPoints[name := ap]
    ensures r.Success? ==> |r.value.accessPoints| == |site.accessPoints| + 1
    ensures r.Success? && Injective(site.accessPoints) ==> Injective(r.value.accessPoints)
    ensures name in site.accessPoints ==> r == Failure(NameTaken(name))
    ensures name !in site.accessPoints && ap in site.accessPoints.Values ==> r == Failure(AccessPointTaken(ap))
  {
    if name in site.accessPoints then
      Failure(NameTaken(name))
    else if ap in site.accessPoints.Values then
      Failure(AccessPointTaken(ap))
    else
      Success(Site(site.accessPoints[name := ap]))
  }

  /** Registering one access point on a fresh site yields exactly the one
      binding `{"things": ap}`. */
  lemma SimpleSetup(ap: ApId)
    ensures Register(NewSite(), "things", ap) == Success(Site(map["things" := ap]))
  {
  }

  /** Registering the same access point again under another name fails. */
  lemma DoubleRegister(ap: ApId)
    ensures Register(NewSite(), "things", ap).Success?
    ensures Register(Register(NewSite(), "things", ap).value, "stuff", ap) == Failure(AccessPointTaken(ap))
  {
    assert Register(NewSite(), "things", ap).value.accessPoints == map["things" := ap];
  }

  /** Registering a different access point under a taken name fails. */
  lemma NameConflict(ap1: ApId, ap2: ApId)
    requires ap1 != ap2
    ensures Register(NewSite(), "things", ap1).Success?
    ensures Register(Register(NewSite(), "things", ap1).value, "things", ap2) == Failure(NameTaken("things"))
  {
  }

  /** The general forms of the two conflict tests: once `ap` is bound under
      `n1`, binding anything under `n1` fails, and binding `ap` under any
      other name fails. */
  lemma ReRegisterFails(site: Site, n1: string, n2: string, ap: ApId, other: ApId)
    requires Register(site, n1, ap).Success?
    requires n1 != n2
    ensures Register(Register(site, n1, ap).value, n1, other) == Failure(NameTaken(n1))
    ensures Register(Register(site, n1, ap).value, n2, ap).Failure?
  {
    var s1 := Register(site, n1, ap).value;
    assert s1.accessPoints[n1] == ap;
  }

  /** Registrations in order, stopping at the first failure. */
  function RegisterAll(site: Site, bindings: seq<(string, ApId)>): (r: Result<Site, RegisterError>)
    decreases |bindings|
  {
    if |bindings| == 0 then
      Success(site)
    else
      match Register(site, bindings[0].0, bindings[0].1)
      case Failure(e) => Failure(e)
      case Success(s1) => RegisterAll(s1, bindings[1..])
  }

  /** No name and no access point of `bindings` is bound in `m`. */
  ghost predicate Fresh(m: map<string, ApId>, bindings: seq<(string, ApId)>)
  {
    forall i :: 0 <= i < |bindings| ==> bindings[i].0 !in m && bindings[i].1 !in m.Values
  }

  /** The names of `bindings` are pairwise distinct, and so are its access points. */
  ghost predicate Distinct(bindings: seq<(string, ApId)>)
  {
    forall i, j :: 0 <= i < j < |bindings| ==>
      bindings[i].0 != bindings[j].0 && bindings[i].1 != bindings[j].1
  }

  /** Adding a fresh binding adds exactly its access point to the values. */
  lemma UpdateValues(m: map<string, ApId>, name: string, ap: ApId)
    requires name !in m
    ensures m[name := ap].Values == m.Values + {ap}
  {
    var m' := m[name := ap];
    forall v | v in m'.Values ensures v in m.Values + {ap} {
      var k :| k in m' && m'[k] == v;
      if k != name {
        assert m[k] == v;
      }
    }
    forall v | v in m.Values + {ap} ensures v in m'.Values {
      if v != ap {
        var k :| k in m && m[k] == v;
        assert m'[k] == v;
      } else {
        assert m'[name] == ap;
      }
    }
  }

  /** Freshness and distinctness of a run, split at its first binding when
      that binding is itself fresh. */
  lemma FreshDistinctCons(m: map<string, ApId>, bindings: seq<(string, ApId)>)
    requires |bindings| > 0
    requires bindings[0].0 !in m && bindings[0].1 !in m.Values
    ensures Fresh(m, bindings) && Distinct(bindings)
            <==> Fresh(m[bindings[0].0 := bindings[0].1], bindings[1..]) && Distinct(bindings[1..])
  {
    var (n0, a0) := bindings[0];
    var tail := bindings[1..];
    var m1 := m[n0 := a0];
    UpdateValues(m, n0, a0);
    if Fresh(m1, tail) && Distinct(tail) {
      forall i | 0 <= i < |bindings|
        ensures bindings[i].0 !in m && bindings[i].1 !in m.Values
      {
        if i > 0 {
          assert bindings[i] == tail[i - 1];
        }
      }
      forall i, j | 0 <= i < j < |bindings|
        ensures bindings[i].0 != bindings[j].0 && bindings[i].1 != bindings[j].1
      {
        assert bindings[j] == tail[j - 1];
        if i > 0 {
          assert bindings[i] == tail[i - 1];
        }
      }
    }
    if Fresh(m, bindings) && Distinct(bindings) {
      forall i | 0 <= i < |tail|
        ensures tail[i].0 !in m1 && tail[i].1 !in m1.Values
      {
        assert tail[i] == bindings[i + 1];
      }
      forall i, j | 0 <= i < j < |tail|
        ensures tail[i].0 != tail[j].0 && tail[i].1 != tail[j].1
      {
        assert tail[i] == bindings[i + 1] && tail[j] == bindings[j + 1];
      }
    }
  }

  /** A run of registrations succeeds exactly when all its names and access
      points are new to the site and pairwise distinct. */
  lemma {:induction false} RegisterAllSucceedsIff(site: Site, bindings: seq<(string, ApId)>)
    ensures RegisterAll(site, bindings).Success?
            <==> Fresh(site.accessPoints, bindings) && Distinct(bindings)
    decreases |bindings|
  {
    if |bindings| > 0 {
      var (n0, a0) := bindings[0];
      var m := site.accessPoints;
      if n0 in m || a0 in m.Values {
        assert !Fresh(m, bindings);
      } else {
        RegisterAllSucceedsIff(Site(m[n0 := a0]), bindings[1..]);
        FreshDistinctCons(m, bindings);
      }
    }
  }

  /** A successful run keeps every earlier binding, binds each of its names
      to its access point, grows the site by one binding per registration,
      and keeps the registry injective. */
  lemma {:induction false} RegisterAllBindsEach(site: Site, bindings: seq<(string, ApId)>)
    requires RegisterAll(site, bindings).Success?
    ensures var r := RegisterAll(site, bindings).value.accessPoints;
            && (forall n :: n in site.accessPoints ==> n in r && r[n] == site.accessPoints[n])
            && (forall i :: 0 <= i < |bindings| ==> bindings[i].0 in r && r[bindings[i].0] == bindings[i].1)
            && |r| == |site.accessPoints| + |bindings|
            && (Injective(site.accessPoints) ==> Injective(r))
    decreases |bindings|
  {
    if |bindings| > 0 {
      var (n0, a0) := bindings[0];
      var tail := bindings[1..];
      var s1 := Register(site, n0, a0).value;
      RegisterAllBindsEach(s1, tail);
      var r := RegisterAll(site, bindings).value.accessPoints;
      assert r == RegisterAll(s1, tail).value.accessPoints;
      forall i | 0 <= i < |bindings|
        ensures bindings[i].0 in r && r[bindings[i].0] == bindings[i].1
      {
        if i > 0 {
          assert bindings[i] == tail[i - 1];
        }
      }
    }
  }
}
