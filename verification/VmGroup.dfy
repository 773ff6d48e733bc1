/** A managed VM group: its VM objects follow the list of instances that the cloud reports. */
module VmGroup {
  import opened Common

  /** An instance that the cloud reports; an empty zone stands for none. */
  datatype VmReference = VmReference(name: string, zone: string)

  class Vm {
    var name: string
    var zone: string
    var deleted: bool

    constructor (name: string, zone: string, deleted: bool)
      ensures this.name == name && this.zone == zone && this.deleted == deleted
    {
      this.name, this.zone, this.deleted := name, zone, deleted;
    }
  }

  ghost predicate DistinctNames(found: seq<VmReference>) {
    forall i, j :: 0 <= i < j < |found| ==> found[i].name != found[j].name
  }

  function NamesOf(found: seq<VmReference>): set<string> { set vm | vm in found :: vm.name }

  lemma {:induction false} NameCount(found: seq<VmReference>)
    requires DistinctNames(found)
    ensures |NamesOf(found)| == |found|
  {
    if found != [] {
      var front, last := found[..|found| - 1], found[|found| - 1];
      NameCount(front);
      assert found == front + [last];
      assert NamesOf(found) == NamesOf(front) + {last.name};
    }
  }

  datatype Outcome = Done | UpdateError | AssertionError

  /** What a caller asks of the group, with the instances the cloud reports afterwards. */
  datatype Request =
    | PostCreate(found: seq<VmReference>)
    | Add(count: int, found: seq<VmReference>)
    | Remove(names: seq<string>, found: seq<VmReference>)
    | Resize(newCount: int, found: seq<VmReference>)

  /** The simple history that the group must agree with: the size meant, and the names of the live VMs. */
  datatype Fleet = Fleet(count: int, names: set<string>)

  predicate Refused(r: Request) { (r.Add? && r.count == 0) || (r.Remove? && r.names == []) }

  function Meant(count: int, r: Request): int {
    match r
    case PostCreate(_) => count
    case Add(more, _) => count + more
    case Remove(names, _) => count - |names|
    case Resize(newCount, _) => newCount
  }

  /** A refused request changes nothing; a failed update changes only the size meant. */
  function After(f: Fleet, r: Request): (Fleet, Outcome) {
    if Refused(r) then (f, AssertionError)
    else if |r.found| != Meant(f.count, r) then (f.(count := Meant(f.count, r)), UpdateError)
    else (Fleet(Meant(f.count, r), NamesOf(r.found)), Done)
  }

  function AfterAll(f: Fleet, requests: seq<Request>): (r: (Fleet, seq<Outcome>))
    ensures |r.1| == |requests|
  {
    if requests == [] then (f, [])
    else
      var (before, outcomes) := AfterAll(f, requests[..|requests| - 1]);
      var (after, outcome) := After(before, requests[|requests| - 1]);
      (after, outcomes + [outcome])
  }

  /** The size meant after a run: every request that is not refused counts, whether its update succeeds or not. */
  function MeantAfter(count: int, requests: seq<Request>): int {
    if requests == [] then count
    else
      var before, last := MeantAfter(count, requests[..|requests| - 1]), requests[|requests| - 1];
      if Refused(last) then before else Meant(before, last)
  }

  lemma {:induction false} CountIsMeant(f: Fleet, requests: seq<Request>)
    ensures AfterAll(f, requests).0.count == MeantAfter(f.count, requests)
  {
    if requests != [] {
      CountIsMeant(f, requests[..|requests| - 1]);
    }
  }

  /**
   * After any run of requests the live names are those that the cloud reported at the last success, and
   * they number the size meant exactly when the requests accepted since then add up to no change.
   */
  lemma {:induction false} NamesAreTheLastSuccess(f: Fleet, requests: seq<Request>, k: nat)
    requires k < |requests| && DistinctNames(requests[k].found) && AfterAll(f, requests).1[k].Done?
    requires forall j :: k < j < |requests| ==> !AfterAll(f, requests).1[j].Done?
    ensures AfterAll(f, requests).0.names == NamesOf(requests[k].found)
    ensures AfterAll(f, requests).0.count == MeantAfter(|requests[k].found|, requests[k + 1..])
    ensures |AfterAll(f, requests).0.names| == AfterAll(f, requests).0.count
       <==> MeantAfter(|requests[k].found|, requests[k + 1..]) == |requests[k].found|
  {
    var n := |requests| - 1;
    NameCount(requests[k].found);
    if k < n {
      var front := requests[..n];
      var outcomes, all := AfterAll(f, front).1, AfterAll(f, requests).1;
      assert forall j :: 0 <= j < n ==> all[j] == outcomes[j];
      assert all[n] == After(AfterAll(f, front).0, requests[n]).1;
      NamesAreTheLastSuccess(f, front, k);
      assert requests[k + 1..][..n - k - 1] == front[k + 1..];
      assert requests[k + 1..][n - k - 1] == requests[n];
    }
  }

  /** The same before the first success, with the fleet of the start. */
  lemma {:induction false} NamesBeforeSuccess(f: Fleet, requests: seq<Request>)
    requires forall j :: 0 <= j < |requests| ==> !AfterAll(f, requests).1[j].Done?
    ensures AfterAll(f, requests).0 == Fleet(MeantAfter(f.count, requests), f.names)
  {
    if requests != [] {
      var n := |requests| - 1;
      var outcomes, all := AfterAll(f, requests[..n]).1, AfterAll(f, requests).1;
      assert forall j :: 0 <= j < n ==> all[j] == outcomes[j];
      assert all[n] == After(AfterAll(f, requests[..n]).0, requests[n]).1;
      NamesBeforeSuccess(f, requests[..n]);
    }
  }

  /** One request keeps names and size in step exactly when it is refused, succeeds, or means the size that
      the group has already. */
  lemma InStepIff(f: Fleet, r: Request)
    requires |f.names| == f.count && DistinctNames(r.found)
    ensures |After(f, r).0.names| == After(f, r).0.count
       <==> Refused(r) || |r.found| == Meant(f.count, r) || Meant(f.count, r) == f.count
  {
    NameCount(r.found);
  }

  /** A failed addition leaves one live VM and the size two; a failed resize to the present size, and a
      failed addition undone by a failed removal, leave them in step without a success. */
  lemma FailuresInAndOutOfStep()
    ensures After(Fleet(1, {"a"}), Add(1, [])) == (Fleet(2, {"a"}), UpdateError)
    ensures After(Fleet(1, {"a"}), Resize(1, [])) == (Fleet(1, {"a"}), UpdateError)
    ensures AfterAll(Fleet(1, {"a"}), [Add(1, []), Remove(["a"], [])]) == (Fleet(1, {"a"}), [UpdateError, UpdateError])
  {
    var f, one, two := Fleet(1, {"a"}), [Add(1, [])], [Add(1, []), Remove(["a"], [])];
    assert AfterAll(f, []) == (f, []);
    assert one[..0] == [] && AfterAll(f, one).1 == [UpdateError];
    assert AfterAll(f, one) == (Fleet(2, {"a"}), [UpdateError]);
    assert two[..1] == one && After(Fleet(2, {"a"}), two[1]) == (f, UpdateError);
    assert AfterAll(f, two).1 == [UpdateError, UpdateError];
  }

  class ManagedVmGroup {
    const vmConfig: Vm
    var vmCount: int
    var vms: map<string, Vm>
    var deletedVms: seq<Vm>
    /** Every VM object that the group has ever made. */
    ghost var created: set<Vm>

    /** Every VM object ever made is either live, under its own name, or deleted, and marked so. */
    ghost predicate Valid()
      reads `vms, `deletedVms, `created, created, vmConfig, vms.Values, deletedVms
    {
      && vmConfig !in created && !vmConfig.deleted
      && created == vms.Values + (set vm | vm in deletedVms) && Distinct(deletedVms)
      && (forall n :: n in vms ==> vms[n].name == n && !vms[n].deleted)
      && (forall vm :: vm in deletedVms ==> vm.deleted)
    }

    constructor (vmConfig: Vm, vmCount: int)
      requires !vmConfig.deleted
      ensures Valid() && vms == map[] && deletedVms == [] && this.vmCount == vmCount && this.vmConfig == vmConfig
      ensures created == {}
    {
      this.vmConfig, this.vmCount, vms, deletedVms, created := vmConfig, vmCount, map[], [], {};
    }

    /** A VM that the cloud no longer reports: live to deleted. */
    method RetireVm(name: string)
      requires Valid() && name in vms
      modifies this`vms, this`deletedVms, vms[name]
      ensures Valid() && created == old(created)
      ensures vms == old(vms) - {name} && deletedVms == old(deletedVms) + [old(vms)[name]]
    {
      var vm := vms[name];
      ghost var before := vms;
      vms := vms - {name};
      vm.deleted := true;
      assert vm !in deletedVms;
      deletedVms := deletedVms + [vm];
      forall x | x in before.Values ensures x == vm || x in vms.Values {
        var n :| n in before && before[n] == x;
        assert n != name ==> n in vms;
      }
      assert vm in (set v | v in deletedVms);
      assert created == vms.Values + (set v | v in deletedVms);
    }

    /** A VM that the cloud reports for the first time: a copy of the template, named and placed. */
    method AddVm(reference: VmReference)
      requires Valid() && reference.name !in vms
      modifies this`vms, this`created
      ensures Valid()
      ensures vms.Keys == old(vms).Keys + {reference.name} && forall n :: n in old(vms) ==> vms[n] == old(vms)[n]
      ensures fresh(vms[reference.name]) && created == old(created) + {vms[reference.name]}
      ensures vms[reference.name].zone == if reference.zone != "" then reference.zone else vmConfig.zone
    {
      var vm := new Vm(vmConfig.name, vmConfig.zone, vmConfig.deleted);
      ghost var before := vms;
      vms := vms[reference.name := vm];
      vm.name := reference.name;
      if reference.zone != "" {
        vm.zone := reference.zone;
      }
      created := created + {vm};
      assert reference.name in vms;
      forall x | x in before.Values ensures x in vms.Values {
        var n :| n in before && before[n] == x;
        assert n in vms && vms[n] == x;
      }
      assert created == vms.Values + (set v | v in deletedVms);
    }

    /** Retires these VMs, in any order. */
    method RetireVms(gone: set<string>)
      requires Valid() && gone <= vms.Keys
      modifies this`vms, this`deletedVms, set n | n in gone :: vms[n]
      ensures Valid() && created == old(created) && vms == old(vms) - gone
      ensures old(deletedVms) <= deletedVms && forall n :: n in gone ==> old(vms)[n] in deletedVms
    {
      var todo := gone;
      while todo != {}
        invariant Valid() && todo <= gone && vms == old(vms) - (gone - todo)
        invariant old(deletedVms) <= deletedVms && forall n :: n in gone - todo ==> old(vms)[n] in deletedVms
        decreases todo
      {
        var name :| name in todo;
        RetireVm(name);
        todo := todo - {name};
      }
    }

    /** Makes a VM for every instance whose name was not known. */
    method AddNewVms(found: seq<VmReference>, known: set<string>)
      requires Valid() && DistinctNames(found) && vms.Keys <= known && forall n :: n in known && n in NamesOf(found) ==> n in vms
      modifies this`vms, this`created
      ensures Valid() && vms.Keys == old(vms).Keys + NamesOf(found)
      ensures forall n :: n in old(vms) ==> vms[n] == old(vms)[n]
      ensures forall n :: n in vms && n !in old(vms) ==> fresh(vms[n])
      ensures old(created) <= created && fresh(created - old(created))
    {
      for k := 0 to |found|
        invariant Valid() && vms.Keys == old(vms).Keys + NamesOf(found[..k])
        invariant forall n :: n in old(vms) ==> vms[n] == old(vms)[n]
        invariant forall n :: n in vms && n !in old(vms) ==> fresh(vms[n])
        invariant old(created) <= created && fresh(created - old(created))
      {
        assert found[..k + 1] == found[..k] + [found[k]];
        assert NamesOf(found[..k + 1]) == NamesOf(found[..k]) + {found[k].name};
        if found[k].name !in known {
          assert found[k].name !in NamesOf(found[..k]);
          AddVm(found[k]);
        } else {
          assert found[k] in found;
        }
      }
      assert found[..|found|] == found;
    }

    /** The second half of _UpdateVmList. */
    method Reconcile(found: seq<VmReference>)
      requires Valid() && DistinctNames(found)
      modifies this`vms, this`deletedVms, this`created, vms.Values
      ensures Valid() && old(created) <= created && fresh(created - old(created)) && old(deletedVms) <= deletedVms
      ensures vms.Keys == NamesOf(found)
      ensures forall n :: n in old(vms) && n in vms ==> vms[n] == old(vms)[n] && unchanged(vms[n])
      ensures forall n :: n in old(vms) && n !in vms ==> old(vms)[n] in deletedVms
      ensures forall n :: n in vms && n !in old(vms) ==> fresh(vms[n])
    {
      var oldNames := vms.Keys;
      var gone := oldNames - NamesOf(found);
      SurvivorsApart(gone);
      RetireVms(gone);
      assert vms.Keys == oldNames * NamesOf(found);
      AddNewVms(found, oldNames);
      assert vms.Keys == NamesOf(found);
    }

    /** _UpdateVmList, for the instances that the cloud reports. */
    method UpdateVmList(found: seq<VmReference>) returns (r: Outcome)
      requires Valid() && DistinctNames(found)
      modifies this`vms, this`deletedVms, this`created, vms.Values
      ensures Valid() && old(created) <= created && fresh(created - old(created)) && old(deletedVms) <= deletedVms
      ensures r == if |found| == vmCount then Done else UpdateError
      ensures r.UpdateError? ==> vms == old(vms) && deletedVms == old(deletedVms) && created == old(created)
      ensures r.Done? ==> vms.Keys == NamesOf(found) && |vms| == vmCount
      ensures forall n :: n in old(vms) && n in vms ==> vms[n] == old(vms)[n] && unchanged(vms[n])
      ensures forall n :: n in old(vms) && n !in vms ==> old(vms)[n] in deletedVms
      ensures forall n :: n in vms && n !in old(vms) ==> fresh(vms[n])
    {
      if |found| != vmCount {
        return UpdateError;
      }
      Reconcile(found);
      NameCount(found);
      r := Done;
    }

    ghost function View(): Fleet
      reads this
    {
      Fleet(vmCount, vms.Keys)
    }

    /** _RunOperation: the new size is recorded before the update that may fail. */
    method RunOperation(newVmCount: int, found: seq<VmReference>) returns (r: Outcome)
      requires Valid() && DistinctNames(found)
      modifies this`vmCount, this`vms, this`deletedVms, this`created, vms.Values
      ensures Valid() && old(created) <= created && fresh(created - old(created)) && old(deletedVms) <= deletedVms
      ensures r == (if |found| == newVmCount then Done else UpdateError) && vmCount == newVmCount
      ensures vms.Keys == if r.Done? then NamesOf(found) else old(vms).Keys
      ensures r.UpdateError? ==> vms == old(vms) && deletedVms == old(deletedVms) && created == old(created)
      ensures forall n :: n in old(vms) && n in vms ==> vms[n] == old(vms)[n] && unchanged(vms[n])
      ensures forall n :: n in old(vms) && n !in vms ==> old(vms)[n] in deletedVms
      ensures forall n :: n in vms && n !in old(vms) ==> fresh(vms[n])
    {
      vmCount := newVmCount;
      assert Valid();
      assert forall n :: n in old(vms) ==> unchanged(vms[n]);
      r := UpdateVmList(found);
    }

    method Perform(request: Request) returns (r: Outcome)
      requires Valid() && DistinctNames(request.found)
      modifies this`vmCount, this`vms, this`deletedVms, this`created, vms.Values
      ensures Valid() && old(created) <= created && fresh(created - old(created)) && old(deletedVms) <= deletedVms
      ensures (View(), r) == After(old(View()), request)
      ensures match request
              case PostCreate(_) => vmCount == old(vmCount)
              case Add(count, _) => vmCount == old(vmCount) + count && (r.AssertionError? <==> count == 0)
              case Remove(names, _) => vmCount == old(vmCount) - |names| && (r.AssertionError? <==> names == [])
              case Resize(newCount, _) => vmCount == newCount
      ensures !r.AssertionError? ==> (r.Done? <==> |request.found| == vmCount)
      ensures r.AssertionError? ==> request.Add? || request.Remove?
      ensures !r.Done? ==> vms == old(vms) && deletedVms == old(deletedVms) && created == old(created)
      ensures forall n :: n in old(vms) && n in vms ==> vms[n] == old(vms)[n] && unchanged(vms[n])
      ensures forall n :: n in old(vms) && n !in vms ==> old(vms)[n] in deletedVms
      ensures forall n :: n in vms && n !in old(vms) ==> fresh(vms[n])
    {
      match request
      case PostCreate(found) => r := UpdateVmList(found);
      case Add(count, found) =>
        if count == 0 {
          return AssertionError;
        }
        r := RunOperation(vmCount + count, found);
      case Remove(names, found) =>
        if names == [] {
          return AssertionError;
        }
        r := RunOperation(vmCount - |names|, found);
      case Resize(newCount, found) => r := RunOperation(newCount, found);
    }

    /**
     * Any sequence of requests, by a caller that carries on after an error: no VM object is lost or
     * revived, and the group agrees with its history.
     */
    method PerformAll(requests: seq<Request>) returns (outcomes: seq<Outcome>)
      requires Valid() && forall r :: r in requests ==> DistinctNames(r.found)
      modifies this`vmCount, this`vms, this`deletedVms, this`created, vms.Values
      ensures Valid() && old(created) <= created && fresh(created - old(created)) && old(deletedVms) <= deletedVms
      ensures (View(), outcomes) == AfterAll(old(View()), requests)
      ensures forall vm :: vm in old(vms.Values) && vm !in vms.Values ==> vm in deletedVms
      ensures forall n :: n in vms && vms[n] !in old(vms.Values) ==> fresh(vms[n])
    {
      outcomes := [];
      for k := 0 to |requests|
        invariant Valid() && old(created) <= created && fresh(created - old(created)) && old(deletedVms) <= deletedVms
        invariant (View(), outcomes) == AfterAll(old(View()), requests[..k])
        invariant forall vm :: vm in old(vms.Values) && vm !in vms.Values ==> vm in deletedVms
        invariant forall vm :: vm in vms.Values && vm !in old(vms.Values) ==> fresh(vm)
      {
        assert requests[..k + 1][..k] == requests[..k];
        var r := Perform(requests[k]);
        outcomes := outcomes + [r];
      }
      assert requests[..|requests|] == requests;
    }

    /** Different names belong to different VM objects. */
    lemma SurvivorsApart(gone: set<string>)
      requires Valid() && gone <= vms.Keys
      ensures forall n :: n in vms && n !in gone ==> vms[n] !in (set m | m in gone :: vms[m])
    {
    }
  }
}
