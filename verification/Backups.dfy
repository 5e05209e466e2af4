/** The folder of database backups that a startup migration makes and prunes. */
module Backups {

  /** A file name of the migration's own form (a 20-digit time stamp and a 32-digit token, so
      that names order as the numbers do), or any other name in the folder. */
  datatype BackupName = Own(stamp: nat, token: nat) | Foreign(name: string)

  predicate Newer(a: BackupName, b: BackupName)
    requires a.Own? && b.Own?
  {
    a.stamp > b.stamp || (a.stamp == b.stamp && a.token > b.token)
  }

  function OwnFiles(names: set<BackupName>): set<BackupName> {
    set n | n in names && n.Own?
  }

  function NewerFiles(names: set<BackupName>, name: BackupName): set<BackupName>
    requires name.Own?
  {
    set n | n in names && n.Own? && Newer(n, name)
  }

  /** The own files that `generations` newer ones make superfluous; 0 keeps everything. */
  function Stale(names: set<BackupName>, generations: nat): set<BackupName> {
    if generations == 0 then {} else set n | n in names && n.Own? && |NewerFiles(names, n)| >= generations
  }

  // ---- newest first

  predicate NewestFirst(s: seq<BackupName>) {
    (forall i :: 0 <= i < |s| ==> s[i].Own?) && forall i, j :: 0 <= i < j < |s| ==> Newer(s[i], s[j])
  }

  function Elements(s: seq<BackupName>): set<BackupName> {
    set n | n in s
  }

  lemma ElementsOfFront(n: BackupName, s: seq<BackupName>)
    ensures Elements([n] + s) == {n} + Elements(s)
  {
    assert forall i :: 0 <= i < |s| ==> ([n] + s)[i + 1] == s[i];
  }

  lemma FrontInserted(s: seq<BackupName>, name: BackupName)
    requires NewestFirst(s) && name.Own? && (s == [] || Newer(name, s[0]))
    ensures NewestFirst([name] + s) && Elements([name] + s) == Elements(s) + {name}
  {
    ElementsOfFront(name, s);
  }

  lemma FrontIsNewest(s: seq<BackupName>, name: BackupName, rest: seq<BackupName>)
    requires s != [] && NewestFirst(s) && name.Own? && name != s[0] && !Newer(name, s[0])
    requires NewestFirst(rest) && Elements(rest) == Elements(s[1..]) + {name}
    ensures NewestFirst([s[0]] + rest)
  {
    forall j | 0 <= j < |rest| ensures Newer(s[0], rest[j]) {
      assert rest[j] in Elements(rest);
      if rest[j] != name {
        var k :| 0 <= k < |s[1..]| && s[1..][k] == rest[j];
        assert s[k + 1] == rest[j];
      }
    }
  }

  lemma RestInserted(s: seq<BackupName>, name: BackupName, rest: seq<BackupName>)
    requires s != [] && Elements(rest) == Elements(s[1..]) + {name}
    ensures Elements([s[0]] + rest) == Elements(s) + {name}
  {
    assert s == [s[0]] + s[1..];
    ElementsOfFront(s[0], rest);
    ElementsOfFront(s[0], s[1..]);
  }

  function Insert(s: seq<BackupName>, name: BackupName): (r: seq<BackupName>)
    requires NewestFirst(s) && name.Own? && name !in s
    ensures NewestFirst(r) && Elements(r) == Elements(s) + {name}
  {
    if s == [] || Newer(name, s[0]) then
      FrontInserted(s, name);
      [name] + s
    else
      var rest := Insert(s[1..], name);
      FrontIsNewest(s, name, rest);
      RestInserted(s, name, rest);
      [s[0]] + rest
  }

  lemma {:induction false} CardinalityOfElements(s: seq<BackupName>)
    requires forall i, j :: 0 <= i < j < |s| ==> s[i] != s[j]
    ensures |Elements(s)| == |s|
    decreases |s|
  {
    if s != [] {
      var front, last := s[..|s| - 1], s[|s| - 1];
      CardinalityOfElements(front);
      ElementsOfExtended(front, last);
      assert s == front + [last];
    }
  }

  lemma ElementsOfExtended(s: seq<BackupName>, n: BackupName)
    ensures Elements(s + [n]) == Elements(s) + {n}
  {
  }

  lemma NewestFirstDistinct(s: seq<BackupName>)
    requires NewestFirst(s)
    ensures |Elements(s)| == |s|
  {
    forall i, j | 0 <= i < j < |s| ensures s[i] != s[j] { assert Newer(s[i], s[j]); }
    CardinalityOfElements(s);
  }

  /** In newest-first order the position of a file is the number of newer files. */
  lemma PositionIsAge(names: set<BackupName>, s: seq<BackupName>, i: nat)
    requires NewestFirst(s) && Elements(s) == OwnFiles(names) && i < |s|
    ensures |NewerFiles(names, s[i])| == i
  {
    forall n ensures n in NewerFiles(names, s[i]) <==> n in Elements(s[..i]) {
      if n in NewerFiles(names, s[i]) {
        assert n in Elements(s);
        var j :| 0 <= j < |s| && s[j] == n;
        assert s[..i][j] == n;
      }
      if n in s[..i] {
        var j :| 0 <= j < |s[..i]| && s[..i][j] == n;
        assert s[j] in Elements(s);
      }
    }
    assert NewerFiles(names, s[i]) == Elements(s[..i]);
    NewestFirstDistinct(s[..i]);
  }

  lemma StaleIsTail(names: set<BackupName>, s: seq<BackupName>, generations: nat)
    requires NewestFirst(s) && Elements(s) == OwnFiles(names) && generations > 0
    ensures Stale(names, generations) == if generations <= |s| then Elements(s[generations..]) else {}
  {
    forall n ensures n in Stale(names, generations) <==> generations <= |s| && n in Elements(s[generations..]) {
      if n in OwnFiles(names) {
        assert n in Elements(s);
        var i :| 0 <= i < |s| && s[i] == n;
        PositionIsAge(names, s, i);
        if i >= generations { assert s[generations..][i - generations] == n; }
        if generations <= |s| && n in s[generations..] {
          var k :| 0 <= k < |s[generations..]| && s[generations..][k] == n;
          assert s[generations + k] == n;
        }
      } else if generations <= |s| {
        assert n !in Elements(s);
      }
    }
  }

  function Front(s: seq<BackupName>, n: nat): seq<BackupName> {
    if n <= |s| then s[..n] else s
  }

  lemma KeptAreFront(names: set<BackupName>, s: seq<BackupName>, generations: nat)
    requires NewestFirst(s) && Elements(s) == OwnFiles(names) && generations > 0
    ensures OwnFiles(names - Stale(names, generations)) == Elements(Front(s, generations))
  {
    var kept, front := names - Stale(names, generations), Front(s, generations);
    StaleIsTail(names, s, generations);
    forall n ensures n in OwnFiles(kept) <==> n in Elements(front) {
      if generations <= |s| { assert s == s[..generations] + s[generations..]; }
      if n in front {
        assert n in Elements(s);
        var i :| 0 <= i < |front| && front[i] == n;
        PositionIsAge(names, s, i);
      }
      if n in OwnFiles(kept) { assert n in Elements(s); }
    }
  }

  lemma KeptAreNewer(s: seq<BackupName>, generations: nat, k: BackupName, r: BackupName)
    requires NewestFirst(s) && generations <= |s| && k in s[..generations] && r in s[generations..]
    ensures Newer(k, r)
  {
    var i :| 0 <= i < generations && s[i] == k;
    var j :| 0 <= j < |s[generations..]| && s[generations..][j] == r;
    assert Newer(s[i], s[generations + j]);
  }

  /** Pruning keeps every foreign file and exactly the newest `generations` own ones. */
  lemma PruningKeepsTheNewest(names: set<BackupName>, generations: nat)
    requires generations > 0
    ensures var kept := names - Stale(names, generations);
            && (forall n :: n in names && n.Foreign? ==> n in kept)
            && (forall k, r :: k in kept && k.Own? && r in Stale(names, generations) ==>
                  k.stamp > r.stamp || (k.stamp == r.stamp && k.token > r.token))
            && |OwnFiles(kept)| == if |OwnFiles(names)| <= generations then |OwnFiles(names)| else generations
  {
    var kept, stale := names - Stale(names, generations), Stale(names, generations);
    var s := SomeOrder(OwnFiles(names));
    StaleIsTail(names, s, generations);
    KeptAreFront(names, s, generations);
    NewestFirstDistinct(s);
    NewestFirstDistinct(Front(s, generations));
    forall k, r | k in kept && k.Own? && r in stale
      ensures k.stamp > r.stamp || (k.stamp == r.stamp && k.token > r.token)
    {
      assert k in OwnFiles(kept) && k in Elements(Front(s, generations));
      KeptAreNewer(s, generations, k, r);
    }
  }

  lemma {:induction false} SomeOrder(own: set<BackupName>) returns (s: seq<BackupName>)
    requires forall n :: n in own ==> n.Own?
    ensures NewestFirst(s) && Elements(s) == own
    decreases |own|
  {
    if own == {} {
      s := [];
    } else {
      var n :| n in own;
      var rest := SomeOrder(own - {n});
      assert n !in Elements(rest);
      s := Insert(rest, n);
    }
  }

  class BackupFolder {
    var files: set<BackupName>

    constructor (files: set<BackupName>)
      ensures this.files == files
    {
      this.files := files;
    }

    /** The own files, newest first. */
    method Listing() returns (backups: seq<BackupName>)
      ensures NewestFirst(backups) && Elements(backups) == OwnFiles(files)
    {
      backups := [];
      var unlisted := OwnFiles(files);
      while unlisted != {}
        invariant NewestFirst(backups) && Elements(backups) !! unlisted
                  && Elements(backups) + unlisted == OwnFiles(files)
        decreases |unlisted|
      {
        var name :| name in unlisted;
        assert name !in Elements(backups);
        backups := Insert(backups, name);
        unlisted := unlisted - {name};
      }
    }

    /** Stops at the first file that cannot be removed. */
    method RemoveAll(stale: seq<BackupName>, removable: set<BackupName>) returns (ok: bool)
      modifies this
      ensures ok <==> Elements(stale) <= removable
      ensures ok ==> files == old(files) - Elements(stale)
      ensures old(files) - Elements(stale) <= files <= old(files)
    {
      for i := 0 to |stale|
        invariant files == old(files) - Elements(stale[..i]) && Elements(stale[..i]) <= removable
      {
        if stale[i] !in removable {
          assert stale[i] in Elements(stale);
          return false;
        }
        assert Elements(stale[..i + 1]) == Elements(stale[..i]) + {stale[i]};
        files := files - {stale[i]};
      }
      assert stale[..|stale|] == stale;
      ok := true;
    }

    /** Removes the own files after the newest `generations`; `removable` are the files whose
        removal would succeed. */
    method Prune(generations: nat, removable: set<BackupName>) returns (ok: bool)
      modifies this
      ensures ok <==> Stale(old(files), generations) <= removable
      ensures ok ==> files == old(files) - Stale(old(files), generations)
      ensures old(files) - Stale(old(files), generations) <= files <= old(files)
    {
      if generations == 0 { return true; }
      var backups := Listing();
      StaleIsTail(files, backups, generations);
      ok := RemoveAll(if generations <= |backups| then backups[generations..] else [], removable);
    }
  }
}
