/** Counting distinct hosts in a log: the hash-set counter and the list it replaced agree. */
module HostCounter {

  /** find_first_of(" ") and substr: the line up to its first space, or all of it. */
  function Host(line: string): (h: string)
    ensures ' ' !in h && h <= line
    ensures h == line || line[|h|] == ' '
  {
    if line == [] || line[0] == ' ' then [] else [line[0]] + Host(line[1..])
  }

  /** The distinct hosts of a log. */
  function Hosts(lines: seq<string>): set<string> {
    set i | 0 <= i < |lines| :: Host(lines[i])
  }

  class SetHostCounter {
    var myHosts: set<string>

    constructor ()
      ensures myHosts == {}
    {
      myHosts := {};
    }

    predicate IsNewHost(hostname: string)
      reads this
    {
      hostname !in myHosts
    }

    method NotifyHost(hostname: string)
      modifies this
      ensures myHosts == old(myHosts) + {hostname}
    {
      if IsNewHost(hostname) {
        myHosts := myHosts + {hostname};
      }
    }

    function GetNbOfHosts(): nat
      reads this
    {
      |myHosts|
    }
  }

  ghost predicate NoDuplicates(s: seq<string>) {
    forall i, j :: 0 <= i < j < |s| ==> s[i] != s[j]
  }

  function Members(s: seq<string>): set<string> {
    set x | x in s
  }

  class ListHostCounter {
    var myHosts: seq<string>

    constructor ()
      ensures myHosts == []
    {
      myHosts := [];
    }

    /** std::find over the vector. */
    method IsNewHost(hostname: string) returns (fresh_: bool)
      ensures fresh_ <==> hostname !in myHosts
    {
      var i := 0;
      while i < |myHosts| && myHosts[i] != hostname
        invariant i <= |myHosts| && hostname !in myHosts[..i]
      {
        i := i + 1;
      }
      fresh_ := i == |myHosts|;
    }

    method NotifyHost(hostname: string)
      requires NoDuplicates(myHosts)
      modifies this
      ensures NoDuplicates(myHosts) && Members(myHosts) == Members(old(myHosts)) + {hostname}
    {
      var isNew := IsNewHost(hostname);
      if isNew {
        myHosts := myHosts + [hostname];
      }
    }

    function GetNbOfHosts(): nat
      reads this
    {
      |myHosts|
    }
  }

  lemma {:induction false} DistinctSize(s: seq<string>)
    requires NoDuplicates(s)
    ensures |Members(s)| == |s|
  {
    if s == [] {
    } else {
      var init := s[..|s| - 1];
      DistinctSize(init);
      assert Members(s) == Members(init) + {s[|s| - 1]};
    }
  }

  /** processFile over the hash set. */
  method CountWithSet(lines: seq<string>) returns (n: nat)
    ensures n == |Hosts(lines)|
  {
    var counter := new SetHostCounter();
    for i := 0 to |lines|
      invariant counter.myHosts == Hosts(lines[..i])
    {
      counter.NotifyHost(Host(lines[i]));
      assert Hosts(lines[..i + 1]) == Hosts(lines[..i]) + {Host(lines[i])};
    }
    assert lines[..|lines|] == lines;
    n := counter.GetNbOfHosts();
  }

  /** processFile over the list: the same number. */
  method CountWithList(lines: seq<string>) returns (n: nat)
    ensures n == |Hosts(lines)|
  {
    var counter := new ListHostCounter();
    for i := 0 to |lines|
      invariant NoDuplicates(counter.myHosts) && Members(counter.myHosts) == Hosts(lines[..i])
    {
      counter.NotifyHost(Host(lines[i]));
      assert Hosts(lines[..i + 1]) == Hosts(lines[..i]) + {Host(lines[i])};
    }
    assert lines[..|lines|] == lines;
    DistinctSize(counter.myHosts);
    n := counter.GetNbOfHosts();
  }
}
