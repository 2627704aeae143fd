/** The ascending order in which the source's ordered sets and maps are visited. */
module SortedSets {

  lemma {:induction false} LeastWitness(s: set<nat>) returns (m: nat)
    requires s != {}
    ensures m in s && forall j :: j in s ==> m <= j
    decreases s
  {
    m :| m in s;
    var k, rest := m, s - {m};
    if rest != {} {
      var r := LeastWitness(rest);
      if r < k { m := r; }
    }
    forall j | j in s
      ensures m <= j
    {
      if j != k { assert j in rest; }
    }
  }

  lemma LeastExists(s: set<nat>)
    requires s != {}
    ensures exists k :: k in s && forall j :: j in s ==> k <= j
  {
    var m := LeastWitness(s);
  }

  function Least(s: set<nat>): (k: nat)
    requires s != {}
    ensures k in s && forall j :: j in s ==> k <= j
  {
    LeastExists(s);
    var k :| k in s && forall j :: j in s ==> k <= j;
    k
  }

  predicate StrictlyAscending(r: seq<nat>) {
    forall i, j :: 0 <= i < j < |r| ==> r[i] < r[j]
  }

  function Ascending(s: set<nat>): (r: seq<nat>)
    ensures StrictlyAscending(r) && |r| == |s|
    ensures forall k :: k in r <==> k in s
  {
    if s == {} then [] else
      var k := Least(s);
      var rest := Ascending(s - {k});
      assert forall i :: 0 <= i < |rest| ==> rest[i] in s - {k};
      [k] + rest
  }

  function Elements(s: seq<nat>): set<nat> {
    set x | x in s
  }
}
