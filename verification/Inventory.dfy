/** The host inventory and the filters that select the hosts a command runs on. */
module Inventory {
  import opened Common

  datatype Host = Host(
    address: string,
    roles: seq<string>,
    user: string,
    port: int,
    identityFile: string,
    isLocal: bool,
    primary: bool,
    deploy: Option<bool>,
    required: Option<bool>)
  {
    predicate DeployEnabled() {
      deploy.None? || deploy.value
    }

    predicate IsRequired() {
      required.Some? && required.value
    }

    predicate FillsOneOf(wanted: seq<string>) {
      exists r :: r in wanted && r in roles
    }
  }

  function Addresses(hosts: seq<Host>): (r: seq<string>)
    ensures |r| == |hosts|
  {
    seq(|hosts|, i requires 0 <= i < |hosts| => hosts[i].address)
  }

  /** Which value of the deploy flag a command is for; AnyHost ignores the flag. */
  datatype Audience = Deployed | NonDeployed | AnyHost

  /** The host passes every filter in turn; an empty list of roles or addresses matches every host. */
  predicate Passes(h: Host, audience: Audience, taskRoles: seq<string>, roles: seq<string>, limit: seq<string>) {
    && (audience == AnyHost || h.DeployEnabled() == (audience == Deployed))
    && (taskRoles == [] || h.FillsOneOf(taskRoles))
    && (roles == [] || h.FillsOneOf(roles))
    && (limit == [] || h.address in limit)
  }

  function Passing(audience: Audience, taskRoles: seq<string>, roles: seq<string>, limit: seq<string>): Host -> bool {
    (h: Host) => Passes(h, audience, taskRoles, roles, limit)
  }

  function FilterExcluded(hosts: seq<Host>, unreachable: set<string>): seq<Host> {
    Filter(hosts, NotIn(unreachable))
  }

  function NotIn(unreachable: set<string>): Host -> bool {
    (h: Host) => h.address !in unreachable
  }

  predicate Apart(hosts: seq<Host>, required: set<string>, i: nat, j: nat) {
    i < j < |hosts| && hosts[i].address !in required ==> hosts[i].address != hosts[j].address
  }

  /** No address is listed twice, except perhaps a required one. */
  ghost predicate DroppableOnce(hosts: seq<Host>, required: set<string>) {
    forall i: nat, j: nat :: Apart(hosts, required, i, j)
  }

  /** A list is without repetition if its rest is and its head does not come again. */
  lemma OnceCons(hosts: seq<Host>, required: set<string>)
    requires hosts != []
    ensures DroppableOnce(hosts, required) <==>
            && DroppableOnce(hosts[1..], required)
            && (hosts[0].address in required || hosts[0].address !in Addresses(hosts[1..]))
  {
    var rest := hosts[1..];
    if DroppableOnce(hosts, required) {
      forall i: nat, j: nat
        ensures Apart(rest, required, i, j)
      {
        assert Apart(hosts, required, i + 1, j + 1);
      }
      forall j: nat | j < |rest| && hosts[0].address !in required
        ensures Addresses(rest)[j] != hosts[0].address
      {
        assert Apart(hosts, required, 0, j + 1);
      }
    } else {
      var i: nat, j: nat :| !Apart(hosts, required, i, j);
      if i == 0 {
        assert Addresses(rest)[j - 1] == hosts[0].address;
      } else {
        assert !Apart(rest, required, i - 1, j - 1);
      }
    }
  }

  lemma {:induction false} FilterKeepsOnce(hosts: seq<Host>, keep: Host -> bool, required: set<string>)
    requires DroppableOnce(hosts, required)
    ensures DroppableOnce(Filter(hosts, keep), required)
  {
    if hosts != [] {
      var rest, kept := hosts[1..], Filter(hosts[1..], keep);
      OnceCons(hosts, required);
      FilterKeepsOnce(rest, keep, required);
      FilterMembers(rest, keep);
      if keep(hosts[0]) {
        var all := [hosts[0]] + kept;
        assert all[1..] == kept;
        if hosts[0].address !in required {
          KeptElsewhere(rest, kept, hosts[0].address);
        }
        OnceCons(all, required);
        assert Filter(hosts, keep) == all;
      } else {
        assert Filter(hosts, keep) == kept;
      }
    } else {
      assert Filter(hosts, keep) == hosts;
    }
  }

  lemma KeptElsewhere(rest: seq<Host>, kept: seq<Host>, address: string)
    requires address !in Addresses(rest) && forall h :: h in kept ==> h in rest
    ensures address !in Addresses(kept)
  {
    forall i | 0 <= i < |kept|
      ensures kept[i].address != address
    {
      assert kept[i] in kept;
      var j :| 0 <= j < |rest| && rest[j] == kept[i];
      assert Addresses(rest)[j] == kept[i].address;
    }
  }

  /** The host preferred for one-host work: the first marked primary, else the first. */
  method PickPrimary(hosts: seq<Host>) returns (picked: seq<Host>)
    ensures picked == Primary(hosts)
    ensures hosts == [] ==> picked == []
    ensures hosts != [] ==> |picked| == 1 && picked[0] in hosts
    ensures hosts != [] ==> (picked[0].primary <==> exists h :: h in hosts && h.primary)
    ensures hosts != [] ==>
              exists i :: 0 <= i < |hosts| && picked == [hosts[i]] &&
                          if hosts[i].primary then forall j :: 0 <= j < i ==> !hosts[j].primary else i == 0
  {
    if |hosts| == 0 {
      return [];
    }
    for i := 0 to |hosts|
      invariant forall j :: 0 <= j < i ==> !hosts[j].primary
      invariant Primary(hosts) == PrimaryFrom(hosts, i)
    {
      if hosts[i].primary {
        return [hosts[i]];
      }
    }
    return hosts[..1];
  }

  function Primary(hosts: seq<Host>): seq<Host> {
    PrimaryFrom(hosts, 0)
  }

  function PrimaryFrom(hosts: seq<Host>, i: nat): seq<Host>
    requires i <= |hosts|
    decreases |hosts| - i
  {
    if hosts == [] then []
    else if i == |hosts| then hosts[..1]
    else if hosts[i].primary then [hosts[i]]
    else PrimaryFrom(hosts, i + 1)
  }

  lemma {:induction false} PrimaryIsOne(hosts: seq<Host>, i: nat)
    requires hosts != [] && i <= |hosts|
    ensures |PrimaryFrom(hosts, i)| == 1 && PrimaryFrom(hosts, i)[0] in hosts
    ensures !PrimaryFrom(hosts, i)[0].primary ==> forall j :: i <= j < |hosts| ==> !hosts[j].primary
    decreases |hosts| - i
  {
    if i < |hosts| && !hosts[i].primary {
      PrimaryIsOne(hosts, i + 1);
    }
  }
}
