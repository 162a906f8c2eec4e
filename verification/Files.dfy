/** The file-system loops of `util.c`: log rotation and recursive directory
    creation, on a file system given as a map or a set of paths. */
module Files {
  import opened Scanning

  // ----- log rotation -----

  /** %03i of a non-negative number. */
  function ThreeDigits(i: nat): (s: string)
    ensures AllDigits(s, 10)
  {
    var d := Decimal(i);
    if |d| == 1 then "00" + d else if |d| == 2 then "0" + d else d
  }

  lemma LeadingZero(s: string)
    ensures Value("0" + s, 10) == Value(s, 10)
    decreases |s|
  {
    if s == [] {
      assert "0" + s == "0";
      assert "0"[..0] == [];
    } else {
      assert ("0" + s)[..|s|] == "0" + s[..|s| - 1];
      LeadingZero(s[..|s| - 1]);
    }
  }

  lemma ThreeDigitsValue(i: nat)
    ensures Value(ThreeDigits(i), 10) == i
  {
    var d := Decimal(i);
    DecimalValue(i);
    LeadingZero(d);
    LeadingZero("0" + d);
    assert "00" + d == "0" + ("0" + d);
  }

  function Rotated(name: string, i: nat): string {
    name + "." + ThreeDigits(i)
  }

  /** The suffix: at least three digits, with zeros in front only up to three. */
  lemma RotatedExact(name: string, i: nat) returns (digits: string)
    ensures Rotated(name, i) == name + "." + digits && |digits| >= 3 && Value(digits, 10) == i
    ensures (forall j | 0 <= j < |digits| :: '0' <= digits[j] <= '9') && (|digits| > 3 ==> digits[0] != '0')
    ensures i == 0 ==> digits == "000"
  {
    digits := ThreeDigits(i);
    ThreeDigitsValue(i);
    DecimalValue(i);
    assert i == 0 ==> Decimal(i) == "0";
  }

  lemma RotatedInjective(name: string, i: nat, j: nat)
    requires Rotated(name, i) == Rotated(name, j)
    ensures i == j
  {
    var n := |name| + 1;
    assert Rotated(name, i)[n..] == ThreeDigits(i) && Rotated(name, j)[n..] == ThreeDigits(j);
    ThreeDigitsValue(i);
    ThreeDigitsValue(j);
  }

  const INT_MAX := 0x7fff_ffff

  /** The name and its terminator fit the buffer of strlen + 16 bytes. */
  lemma RotatedFits(name: string, i: nat)
    requires i <= INT_MAX
    ensures |Rotated(name, i)| + 1 <= |name| + 16
  {
    assert Power10(10) == 10_000_000_000 by {
      assert Power10(0) == 1 && Power10(1) == 10 && Power10(2) == 100 && Power10(3) == 1000 && Power10(4) == 10_000;
      assert Power10(5) == 100_000 && Power10(6) == 1_000_000 && Power10(7) == 10_000_000 && Power10(8) == 100_000_000;
      assert Power10(9) == 1_000_000_000;
    }
    DecimalLength(i, 10);
  }

  function Candidates(name: string, n: nat): (s: set<string>)
    ensures forall x :: x in s <==> exists j | 0 <= j < n :: x == Rotated(name, j)
  {
    if n == 0 then {} else Candidates(name, n - 1) + {Rotated(name, n - 1)}
  }

  lemma NewCandidate(name: string, n: nat)
    ensures Rotated(name, n) !in Candidates(name, n) && Rotated(name, n) != name
  {
    assert |Rotated(name, n)| > |name|;
    if Rotated(name, n) in Candidates(name, n) {
      var j :| 0 <= j < n && Rotated(name, n) == Rotated(name, j);
      RotatedInjective(name, n, j);
    }
  }

  lemma AddOne<T>(s: set<T>, x: T)
    requires x !in s
    ensures |s + {x}| == |s| + 1
  {
  }

  /** The rotated names are all different, and none is the name itself. */
  lemma {:induction false} CandidatesCount(name: string, n: nat)
    ensures |Candidates(name, n)| == n && name !in Candidates(name, n)
  {
    if n > 0 {
      CandidatesCount(name, n - 1);
      NewCandidate(name, n - 1);
      AddOne(Candidates(name, n - 1), Rotated(name, n - 1));
    }
  }

  lemma SubsetSize<T>(a: set<T>, b: set<T>)
    requires a <= b
    ensures |a| <= |b|
  {
    if a != {} {
      var x :| x in a;
      SubsetSize(a - {x}, b - {x});
    }
  }

  /** On a finite file system some rotated name is free: those that are taken and
      the name itself are all different files. */
  lemma TakenCandidates(files: map<string, string>, name: string, n: nat)
    requires name in files && Candidates(name, n) <= files.Keys
    ensures n < |files|
  {
    CandidatesCount(name, n);
    SubsetSize(Candidates(name, n) + {name}, files.Keys);
  }

  /** `accessible` and `renames` say how access(2) and rename(2) answer. */
  method RenameIfExists(files: map<string, string>, name: string, accessible: bool, renames: bool)
    returns (after: map<string, string>, ok: bool, free: nat)
    requires |files| <= INT_MAX  // the counter is an int
    ensures ok <==> name !in files || (accessible && renames)
    ensures !ok || name !in files ==> after == files
    ensures ok && name in files ==>
              && Rotated(name, free) !in files
              && (forall j | 0 <= j < free :: Rotated(name, j) in files)
              && free < |files| && |Rotated(name, free)| + 1 <= |name| + 16
              && after.Keys == files.Keys - {name} + {Rotated(name, free)}
              && after[Rotated(name, free)] == files[name]
              && forall x | x in files && x != name :: x in after && after[x] == files[x]
  {
    free := 0;
    if name !in files {
      return files, true, free;
    }
    if !accessible {
      return files, false, free;
    }
    TakenCandidates(files, name, 0);
    while Rotated(name, free) in files
      invariant Candidates(name, free) <= files.Keys && free < |files|
      decreases |files| - free
    {
      free := free + 1;
      TakenCandidates(files, name, free);
    }
    forall j | 0 <= j < free
      ensures Rotated(name, j) in files
    {
      assert Rotated(name, j) in Candidates(name, free);
    }
    if !renames {
      return files, false, free;
    }
    RotatedFits(name, free);
    after := (files - {name})[Rotated(name, free) := files[name]];
    return after, true, free;
  }

  // ----- recursive_mkdir -----

  /** The first '/' at or after `from`, or the end of the path: the last step takes
      the full path, as is evidently meant where the source subtracts from NULL. */
  function NextCut(path: string, from: nat): (k: nat)
    requires from <= |path|
    ensures from <= k <= |path|
    ensures k < |path| ==> path[k] == '/'
    ensures forall i | from <= i < k :: path[i] != '/'
    decreases |path| - from
  {
    if from == |path| || path[from] == '/' then from else NextCut(path, from + 1)
  }

  predicate Cut(path: string, k: int) {
    1 <= k <= |path| && (k < |path| ==> path[k] == '/')
  }

  /** The directories a path runs through, itself included. */
  ghost function Wanted(path: string): (s: set<string>)
    ensures forall x :: x in s <==> exists k :: Cut(path, k) && x == path[..k]
  {
    set k | 0 <= k <= |path| && Cut(path, k) :: path[..k]
  }

  /** Every directory has its parents. */
  ghost predicate PrefixClosed(dirs: set<string>) {
    forall p, k | p in dirs && Cut(p, k) :: p[..k] in dirs
  }

  /** Some directory of the path up to `k` is missing and cannot be made. */
  ghost predicate Blocked(path: string, dirs: set<string>, denied: set<string>, k: int) {
    exists j :: Cut(path, j) && j <= k && path[..j] !in dirs && path[..j] in denied
  }

  lemma BlockedNext(path: string, dirs: set<string>, denied: set<string>, at: nat, next: nat)
    requires at < next <= |path| && Cut(path, next) && forall k | Cut(path, k) && k < next :: k <= at
    ensures Blocked(path, dirs, denied, next)
            <==> Blocked(path, dirs, denied, at) || (path[..next] !in dirs && path[..next] in denied)
  {
  }

  lemma ExistingUnblocked(path: string, dirs: set<string>, denied: set<string>, k: nat)
    requires PrefixClosed(dirs) && k <= |path| && (k == 0 || (Cut(path, k) && path[..k] in dirs))
    ensures !Blocked(path, dirs, denied, k)
  {
    forall j | Cut(path, j) && j <= k
      ensures path[..j] in dirs
    {
      assert Cut(path[..k], j) && path[..k][..j] == path[..j];
    }
  }

  lemma BlockedMonotone(path: string, dirs: set<string>, denied: set<string>, j: int, k: int)
    requires j <= k && Blocked(path, dirs, denied, j)
    ensures Blocked(path, dirs, denied, k)
  {
  }

  /** `denied` holds the paths on which mkdir(2) fails although their parents exist; it
      also fails when the parent is missing. A failure is noticed only when a
      messenger has been set: without one the loop goes on and answers true. The
      directories made are listed in the order they are made. */
  method RecursiveMkdir(path: string, dirs: set<string>, denied: set<string>, messenger: bool)
    returns (made: seq<string>, ok: bool)
    requires path != "" && PrefixClosed(dirs)
    ensures ok <==> !messenger || !Blocked(path, dirs, denied, |path|)
    ensures forall k | Cut(path, k) && path[..k] !in dirs :: path[..k] in made <==> !Blocked(path, dirs, denied, k)
    ensures forall i | 0 <= i < |made| :: made[i] in Wanted(path) && made[i] !in dirs && made[i] !in denied
    ensures forall i, k | 0 <= i < |made| && Cut(made[i], k) && k < |made[i]| ::
              made[i][..k] in dirs || made[i][..k] in made[..i]
    ensures var after := dirs + set p | p in made;
            PrefixClosed(after) && (!Blocked(path, dirs, denied, |path|) ==> after == dirs + Wanted(path))
  {
    made, ok := [], true;
    var at := 0;
    var more := true;
    while more
      invariant 0 <= at <= |path| && (more ==> at < |path|) && (!more ==> at == |path|)
      invariant at == 0 || Cut(path, at)
      invariant forall i | 0 <= i < |made| ::
                made[i] in Wanted(path) && made[i] !in dirs && made[i] !in denied && |made[i]| <= at
      invariant forall k | Cut(path, k) && k <= at && path[..k] !in dirs ::
                  path[..k] in made <==> !Blocked(path, dirs, denied, k)
      invariant forall i, k | 0 <= i < |made| && Cut(made[i], k) && k < |made[i]| ::
                  made[i][..k] in dirs || made[i][..k] in made[..i]
      invariant ok && (messenger ==> !Blocked(path, dirs, denied, at))
      decreases more, |path| - at
    {
      var next := NextCut(path, at + 1);
      var prefix := path[..next];
      assert Cut(path, next);
      forall k | Cut(path, k) && k < next
        ensures k <= at
      {
      }
      BlockedNext(path, dirs, denied, at, next);
      if prefix !in dirs {
        var parent := at == 0 || path[..at] in dirs || path[..at] in made;
        if at == 0 || path[..at] in dirs {
          ExistingUnblocked(path, dirs, denied, at);
        }
        assert parent <==> !Blocked(path, dirs, denied, at);
        if prefix !in denied && parent {
          MakeOne(path, dirs, denied, made, at, next);
          made := made + [prefix];
        } else if messenger {
          ok := false;
          MadeClosed(dirs, made);
          NothingBehind(path, dirs, denied, made, next);
          return;
        }
      } else {
        ExistingUnblocked(path, dirs, denied, next);
      }
      at, more := next, next < |path|;
    }
    MadeClosed(dirs, made);
  }

  /** A directory made behind its existing parent. */
  lemma MakeOne(path: string, dirs: set<string>, denied: set<string>, made: seq<string>, at: nat, next: nat)
    requires at < next <= |path| && Cut(path, next) && forall k | Cut(path, k) && k < next :: k <= at
    requires !Blocked(path, dirs, denied, at)
    requires forall k | Cut(path, k) && k <= at && path[..k] !in dirs ::
               path[..k] in made <==> !Blocked(path, dirs, denied, k)
    requires forall i, k | 0 <= i < |made| && Cut(made[i], k) && k < |made[i]| ::
               made[i][..k] in dirs || made[i][..k] in made[..i]
    ensures var after := made + [path[..next]];
            forall i, k | 0 <= i < |after| && Cut(after[i], k) && k < |after[i]| ::
              after[i][..k] in dirs || after[i][..k] in after[..i]
  {
    var prefix := path[..next];
    var after := made + [prefix];
    forall i, k | 0 <= i < |after| && Cut(after[i], k) && k < |after[i]|
      ensures after[i][..k] in dirs || after[i][..k] in after[..i]
    {
      if i < |made| {
        assert after[..i] == made[..i];
      } else {
        assert after[..i] == made;
        assert Cut(path, k) && prefix[..k] == path[..k];
        if Blocked(path, dirs, denied, k) {
          BlockedMonotone(path, dirs, denied, k, at);
        }
      }
    }
  }

  /** Behind a directory that is missing and could not be made none has been made. */
  lemma NothingBehind(path: string, dirs: set<string>, denied: set<string>, made: seq<string>, next: nat)
    requires Cut(path, next) && Blocked(path, dirs, denied, next) && forall p | p in made :: |p| < next
    ensures Blocked(path, dirs, denied, |path|)
    ensures forall k | Cut(path, k) && k >= next :: path[..k] !in made && Blocked(path, dirs, denied, k)
  {
    BlockedMonotone(path, dirs, denied, next, |path|);
    forall k | Cut(path, k) && k >= next
      ensures path[..k] !in made && Blocked(path, dirs, denied, k)
    {
      BlockedMonotone(path, dirs, denied, next, k);
    }
  }

  /** Before a messenger is set, as when the option file is looked for, a failure of
      the very first step goes unnoticed. */
  method DeniedUnnoticed() returns (made: seq<string>, ok: bool)
    ensures ok && made == []
  {
    var path, denied := "/a/b", {"/a"};
    made, ok := RecursiveMkdir(path, {}, denied, false);
    assert Cut(path, 2) && path[..2] == "/a";
    assert Blocked(path, {}, denied, 2);
    forall k | Cut(path, k)
      ensures path[..k] !in made
    {
      assert path[1] != '/';
      BlockedMonotone(path, {}, denied, 2, k);
    }
    assert made != [] ==> made[0] in Wanted(path);
  }

  lemma MadeClosed(dirs: set<string>, made: seq<string>)
    requires PrefixClosed(dirs)
    requires forall i, k | 0 <= i < |made| && Cut(made[i], k) && k < |made[i]| ::
             made[i][..k] in dirs || made[i][..k] in made[..i]
    ensures PrefixClosed(dirs + set p | p in made)
  {
    var after := dirs + set p | p in made;
    forall p, k | p in after && Cut(p, k)
      ensures p[..k] in after
    {
      if p !in dirs {
        var i :| 0 <= i < |made| && made[i] == p;
        if k == |p| {
          assert p[..k] == p;
        }
      }
    }
  }
}
