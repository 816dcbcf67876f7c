/** The resumable migration runner (infra/migrate.py). */
module Migrate {
  import opened Wrappers

  // --- File order ---

  predicate IsDigit(c: char) {
    '0' <= c <= '9'
  }

  /** The number the leading digits of `name` spell, continuing from `value`. */
  function LeadingNumber(name: string, value: nat): nat {
    if name == [] || !IsDigit(name[0]) then value
    else LeadingNumber(name[1..], 10 * value + (name[0] as int - '0' as int))
  }

  predicate HasNumber(name: string) {
    name != [] && IsDigit(name[0])
  }

  function NumericPrefix(name: string): int {
    if HasNumber(name) then LeadingNumber(name, 0) else -1
  }

  /** The decimal value of a digit string, read from its last digit. */
  function Decimal(digits: string): nat
    requires forall c | c in digits :: IsDigit(c)
  {
    if digits == [] then 0 else
      var n := |digits| - 1;
      assert digits[n] in digits && IsDigit(digits[n]);
      10 * Decimal(digits[..n]) + (digits[n] as int - '0' as int)
  }

  lemma {:induction false} LeadingNumberSnoc(digits: string, c: char, rest: string, value: nat)
    requires (forall d | d in digits :: IsDigit(d)) && IsDigit(c) && (rest == [] || !IsDigit(rest[0]))
    ensures LeadingNumber(digits + [c] + rest, value) ==
      10 * LeadingNumber(digits + rest, value) + (c as int - '0' as int)
  {
    var whole := digits + [c] + rest;
    if digits == [] {
      assert digits + rest == rest && whole[0] == c && whole[1..] == rest;
    } else {
      assert digits[0] in digits;
      var value' := 10 * value + (digits[0] as int - '0' as int);
      assert whole[0] == digits[0] && whole[1..] == digits[1..] + [c] + rest;
      assert (digits + rest)[0] == digits[0] && (digits + rest)[1..] == digits[1..] + rest;
      LeadingNumberSnoc(digits[1..], c, rest, value');
    }
  }

  /** The sort key of a file name is the decimal value of its leading digits. */
  lemma {:induction false} PrefixIsDecimal(digits: string, rest: string)
    requires digits != [] && (forall d | d in digits :: '0' <= d <= '9') && (rest == [] || !('0' <= rest[0] <= '9'))
    ensures NumericPrefix(digits + rest) == Decimal(digits)
  {
    var n := |digits| - 1;
    var front, c := digits[..n], digits[n];
    forall d | d in front
      ensures '0' <= d <= '9'
    {
      var i :| 0 <= i < |front| && front[i] == d;
      assert digits[i] == d && d in digits;
    }
    assert digits + rest == front + [c] + rest && c in digits;
    LeadingNumberSnoc(front, c, rest, 0);
    if front == [] {
      assert front + rest == rest;
    } else {
      PrefixIsDecimal(front, rest);
    }
  }

  /** Digit by digit: one digit is its value, and every further one multiplies by ten; other names come before all. */
  lemma PrefixDigitByDigit(digits: string, c: char, rest: string)
    requires (forall d | d in digits :: '0' <= d <= '9') && '0' <= c <= '9' && (rest == [] || !('0' <= rest[0] <= '9'))
    ensures NumericPrefix(digits + [c] + rest) ==
      (if digits == [] then 0 else 10 * NumericPrefix(digits + rest)) + (c as int - '0' as int)
    ensures NumericPrefix(rest) == -1
  {
    LeadingNumberSnoc(digits, c, rest, 0);
    if digits == [] {
      assert digits + rest == rest;
    } else {
      assert digits[0] in digits && (digits + rest)[0] == digits[0];
    }
  }

  function Numbered(glob: seq<string>): seq<string> {
    if glob == [] then []
    else if HasNumber(glob[0]) then [glob[0]] + Numbered(glob[1..])
    else Numbered(glob[1..])
  }

  function Insert(name: string, files: seq<string>): seq<string> {
    if files == [] || NumericPrefix(name) <= NumericPrefix(files[0]) then [name] + files
    else [files[0]] + Insert(name, files[1..])
  }

  /** A stable sort by numeric prefix. */
  function SortByPrefix(files: seq<string>): seq<string> {
    if files == [] then [] else Insert(files[0], SortByPrefix(files[1..]))
  }

  function MigrationFiles(glob: seq<string>): seq<string> {
    SortByPrefix(Numbered(glob))
  }

  predicate InOrder(files: seq<string>) {
    forall i, j | 0 <= i < j < |files| :: NumericPrefix(files[i]) <= NumericPrefix(files[j])
  }

  predicate DistinctPrefixes(files: seq<string>) {
    forall i, j | 0 <= i < j < |files| :: NumericPrefix(files[i]) != NumericPrefix(files[j])
  }

  lemma {:induction false} InsertAdds(name: string, files: seq<string>)
    ensures multiset(Insert(name, files)) == multiset{name} + multiset(files)
  {
    if files != [] && NumericPrefix(name) > NumericPrefix(files[0]) {
      InsertAdds(name, files[1..]);
      assert files == [files[0]] + files[1..];
    }
  }

  predicate AllAtLeast(bound: int, files: seq<string>) {
    forall i | 0 <= i < |files| :: bound <= NumericPrefix(files[i])
  }

  lemma InOrderCons(first: string, rest: seq<string>)
    ensures InOrder([first] + rest) <==> AllAtLeast(NumericPrefix(first), rest) && InOrder(rest)
  {
    var files := [first] + rest;
    if InOrder(files) {
      forall i | 0 <= i < |rest|
        ensures NumericPrefix(first) <= NumericPrefix(rest[i])
      {
        assert NumericPrefix(files[0]) <= NumericPrefix(files[i + 1]);
      }
      forall i, j | 0 <= i < j < |rest|
        ensures NumericPrefix(rest[i]) <= NumericPrefix(rest[j])
      {
        assert NumericPrefix(files[i + 1]) <= NumericPrefix(files[j + 1]);
      }
    }
  }

  lemma {:induction false} InsertSorts(name: string, files: seq<string>, bound: int)
    requires InOrder(files)
    ensures InOrder(Insert(name, files))
    ensures AllAtLeast(bound, files) && bound <= NumericPrefix(name) ==> AllAtLeast(bound, Insert(name, files))
  {
    if files == [] || NumericPrefix(name) <= NumericPrefix(files[0]) {
      if files != [] {
        assert files == [files[0]] + files[1..];
        InOrderCons(files[0], files[1..]);
      }
      InOrderCons(name, files);
    } else {
      var rest := files[1..];
      assert files == [files[0]] + rest;
      InOrderCons(files[0], rest);
      InsertSorts(name, rest, NumericPrefix(files[0]));
      InOrderCons(files[0], Insert(name, rest));
      InsertSorts(name, rest, bound);
    }
  }

  lemma {:induction false} SortSorts(files: seq<string>)
    ensures InOrder(SortByPrefix(files))
    ensures multiset(SortByPrefix(files)) == multiset(files)
  {
    if files != [] {
      SortSorts(files[1..]);
      InsertSorts(files[0], SortByPrefix(files[1..]), 0);
      InsertAdds(files[0], SortByPrefix(files[1..]));
      assert files == [files[0]] + files[1..];
    }
  }

  lemma SmallestFirst(a: seq<string>, b: seq<string>)
    requires InOrder(a) && InOrder(b) && DistinctPrefixes(a) && multiset(a) == multiset(b) && a != []
    ensures b != [] && a[0] == b[0]
  {
    assert |multiset(a)| == |a| && |multiset(b)| == |b|;
    assert a[0] in multiset(b) && b[0] in multiset(a);
    var i :| 0 <= i < |b| && b[i] == a[0];
    var j :| 0 <= j < |a| && a[j] == b[0];
    assert NumericPrefix(b[0]) <= NumericPrefix(b[i]) && NumericPrefix(a[0]) <= NumericPrefix(a[j]);
    assert j == 0;
  }

  lemma TailMultiset(a: seq<string>)
    requires a != []
    ensures multiset(a[1..]) == multiset(a) - multiset{a[0]}
  {
    assert a == [a[0]] + a[1..];
  }

  /** With distinct prefixes there is one way to put the files in order. */
  lemma {:induction false} OrderUnique(a: seq<string>, b: seq<string>)
    requires InOrder(a) && InOrder(b) && DistinctPrefixes(a) && multiset(a) == multiset(b)
    ensures a == b
  {
    if a == [] {
      assert |multiset(b)| == 0;
    } else {
      SmallestFirst(a, b);
      TailMultiset(a);
      TailMultiset(b);
      OrderUnique(a[1..], b[1..]);
      assert a == [a[0]] + a[1..] && b == [b[0]] + b[1..];
    }
  }

  lemma {:induction false} NumberedCount(glob: seq<string>, name: string)
    ensures multiset(Numbered(glob))[name] == if HasNumber(name) then multiset(glob)[name] else 0
  {
    if glob != [] {
      NumberedCount(glob[1..], name);
      assert glob == [glob[0]] + glob[1..];
    }
  }

  lemma {:induction false} SamePrefixesDistinct(a: seq<string>, b: seq<string>)
    requires multiset(a) == multiset(b) && DistinctPrefixes(a) && InOrder(b)
    ensures DistinctPrefixes(b)
  {
    forall i, j | 0 <= i < j < |b|
      ensures NumericPrefix(b[i]) != NumericPrefix(b[j])
    {
      assert b[i] in multiset(a) && b[j] in multiset(a);
      var k :| 0 <= k < |a| && a[k] == b[i];
      var l :| 0 <= l < |a| && a[l] == b[j];
      if k == l {
        TwiceIn(b, i, j);
        OnceIn(a, k);
      }
    }
  }

  lemma TwiceIn(s: seq<string>, i: nat, j: nat)
    requires i < j < |s| && s[i] == s[j]
    ensures multiset(s)[s[i]] >= 2
  {
    assert s == s[..i] + [s[i]] + s[i + 1..j] + [s[j]] + s[j + 1..];
  }

  lemma OnceIn(s: seq<string>, k: nat)
    requires k < |s| && DistinctPrefixes(s)
    ensures multiset(s)[s[k]] == 1
  {
    assert s == s[..k] + [s[k]] + s[k + 1..];
    assert s[k] !in s[..k] && s[k] !in s[k + 1..];
  }

  /** The listed order of the directory does not matter when the prefixes are distinct. */
  lemma DirectoryOrderIrrelevant(glob: seq<string>, glob': seq<string>)
    requires multiset(glob) == multiset(glob') && DistinctPrefixes(Numbered(glob))
    ensures MigrationFiles(glob) == MigrationFiles(glob')
    ensures InOrder(MigrationFiles(glob)) && DistinctPrefixes(MigrationFiles(glob))
  {
    var a, b := Numbered(glob), Numbered(glob');
    assert multiset(a) == multiset(b) by {
      forall name
        ensures multiset(a)[name] == multiset(b)[name]
      {
        NumberedCount(glob, name);
        NumberedCount(glob', name);
      }
    }
    SortSorts(a);
    SortSorts(b);
    SamePrefixesDistinct(a, SortByPrefix(a));
    OrderUnique(SortByPrefix(a), SortByPrefix(b));
  }

  /** The files that run are exactly those whose name starts with a digit, each once. */
  lemma FilesStartWithDigit(glob: seq<string>, name: string)
    ensures multiset(MigrationFiles(glob))[name] ==
      if name != [] && '0' <= name[0] <= '9' then multiset(glob)[name] else 0
  {
    NumberedCount(glob, name);
    SortSorts(Numbered(glob));
  }

  // --- When the directory order matters ---

  predicate DistinctNames(files: seq<string>) {
    forall i, j | 0 <= i < j < |files| :: files[i] != files[j]
  }

  function OfPrefix(files: seq<string>, p: int): seq<string> {
    if files == [] then [] else (if NumericPrefix(files[0]) == p then [files[0]] else []) + OfPrefix(files[1..], p)
  }

  lemma {:induction false} InsertOfPrefix(name: string, files: seq<string>, p: int)
    ensures OfPrefix(Insert(name, files), p) == (if NumericPrefix(name) == p then [name] else []) + OfPrefix(files, p)
  {
    if files == [] || NumericPrefix(name) <= NumericPrefix(files[0]) {
      assert ([name] + files)[1..] == files;
    } else {
      InsertOfPrefix(name, files[1..], p);
      assert ([files[0]] + Insert(name, files[1..]))[1..] == Insert(name, files[1..]);
    }
  }

  /** The sort is stable. */
  lemma {:induction false} SortStable(files: seq<string>, p: int)
    ensures OfPrefix(SortByPrefix(files), p) == OfPrefix(files, p)
  {
    if files != [] {
      SortStable(files[1..], p);
      InsertOfPrefix(files[0], SortByPrefix(files[1..]), p);
    }
  }

  function Backwards(files: seq<string>): (r: seq<string>)
    ensures |r| == |files|
    ensures files != [] ==> r[0] == files[|files| - 1]
    ensures multiset(r) == multiset(files)
  {
    if files == [] then [] else
      assert files == [files[0]] + files[1..];
      Backwards(files[1..]) + [files[0]]
  }

  /** The listed files with one prefix, in listed order. */
  function Listed(glob: seq<string>, p: int): seq<string> {
    OfPrefix(Numbered(glob), p)
  }

  lemma ListedCons(name: string, glob: seq<string>, p: int)
    ensures Listed([name] + glob, p) ==
      (if HasNumber(name) && NumericPrefix(name) == p then [name] else []) + Listed(glob, p)
  {
    assert ([name] + glob)[1..] == glob;
    if HasNumber(name) {
      assert ([name] + Numbered(glob))[1..] == Numbered(glob);
    }
  }

  lemma {:induction false} ListedConcat(a: seq<string>, b: seq<string>, p: int)
    ensures Listed(a + b, p) == Listed(a, p) + Listed(b, p)
  {
    if a == [] {
      assert a + b == b;
    } else {
      ListedConcat(a[1..], b, p);
      ListedCons(a[0], a[1..] + b, p);
      ListedCons(a[0], a[1..], p);
      assert a == [a[0]] + a[1..] && a + b == [a[0]] + (a[1..] + b);
    }
  }

  lemma {:induction false} ListedBackwards(glob: seq<string>, p: int)
    ensures Listed(Backwards(glob), p) == Backwards(Listed(glob, p))
  {
    if glob != [] {
      var name, rest := glob[0], glob[1..];
      var tail := Listed(rest, p);
      ListedBackwards(rest, p);
      ListedConcat(Backwards(rest), [name], p);
      ListedCons(name, rest, p);
      ListedCons(name, [], p);
      assert glob == [name] + rest && [name] + [] == [name];
      if HasNumber(name) && NumericPrefix(name) == p {
        assert ([name] + tail)[1..] == tail;
      } else {
        assert [] + tail == tail && Backwards(tail) + [] == Backwards(tail);
      }
    }
  }

  lemma {:induction false} ListedCount(glob: seq<string>, p: int, name: string)
    ensures multiset(Listed(glob, p))[name] ==
      if HasNumber(name) && NumericPrefix(name) == p then multiset(glob)[name] else 0
  {
    if glob != [] {
      ListedCount(glob[1..], p, name);
      ListedCons(glob[0], glob[1..], p);
      assert glob == [glob[0]] + glob[1..];
    }
  }

  lemma AtMostOnce(files: seq<string>, name: string)
    requires DistinctNames(files)
    ensures multiset(files)[name] <= 1
  {
    if k: nat :| k < |files| && files[k] == name {
      assert files == files[..k] + [name] + files[k + 1..];
      assert name !in files[..k] && name !in files[k + 1..];
    }
  }

  /** Two files with one prefix, listed in the opposite order, are applied in the opposite order. */
  lemma ReversedListingDiffers(glob: seq<string>, i: nat, j: nat)
    requires DistinctNames(glob) && i < j < |Numbered(glob)|
    requires NumericPrefix(Numbered(glob)[i]) == NumericPrefix(Numbered(glob)[j])
    ensures MigrationFiles(Backwards(glob)) != MigrationFiles(glob)
  {
    var x, y := Numbered(glob)[i], Numbered(glob)[j];
    var p := NumericPrefix(x);
    var listed := Listed(glob, p);
    assert x in multiset(Numbered(glob)) && y in multiset(Numbered(glob));
    NumberedCount(glob, x);
    NumberedCount(glob, y);
    AtMostOnce(glob, x);
    if x == y {
      TwiceIn(Numbered(glob), i, j);
    }
    ListedCount(glob, p, x);
    ListedCount(glob, p, y);
    TwoMembers(listed, x, y);
    ListedBackwards(glob, p);
    if Backwards(listed) == listed {
      var first := listed[0];
      TwiceIn(listed, 0, |listed| - 1);
      ListedCount(glob, p, first);
      AtMostOnce(glob, first);
    }
    SortStable(Numbered(glob), p);
    SortStable(Numbered(Backwards(glob)), p);
  }

  lemma TwoMembers(s: seq<string>, x: string, y: string)
    requires x != y && multiset(s)[x] > 0 && multiset(s)[y] > 0
    ensures |s| >= 2
  {
    assert x in s && y in s;
  }

  /** Whatever order a directory lists its files in, they run in one order exactly when no two share a prefix. */
  lemma OrderFixedIff(glob: seq<string>)
    requires DistinctNames(glob)
    ensures (forall glob' | multiset(glob') == multiset(glob) :: MigrationFiles(glob') == MigrationFiles(glob))
      <==> DistinctPrefixes(Numbered(glob))
  {
    if DistinctPrefixes(Numbered(glob)) {
      forall glob' | multiset(glob') == multiset(glob)
        ensures MigrationFiles(glob') == MigrationFiles(glob)
      {
        DirectoryOrderIrrelevant(glob, glob');
      }
    } else {
      var i, j :| 0 <= i < j < |Numbered(glob)| &&
        NumericPrefix(Numbered(glob)[i]) == NumericPrefix(Numbered(glob)[j]);
      ReversedListingDiffers(glob, i, j);
      assert multiset(Backwards(glob)) == multiset(glob);
    }
  }

  // --- One run ---

  /** The files that schema_migrations does not list, in order. */
  function Pending(recorded: seq<string>, files: seq<string>): seq<string> {
    if files == [] then [] else
      (if files[0] in recorded then [] else [files[0]]) + Pending(recorded, files[1..])
  }

  function Min(a: nat, b: nat): nat {
    if a < b then a else b
  }

  /** How many migrations a run commits: all pending ones, or as many as come before the error or crash. */
  function Commits(recorded: seq<string>, files: seq<string>, failAfter: Option<nat>): (n: nat)
    ensures n <= |Pending(recorded, files)|
  {
    var all := |Pending(recorded, files)|;
    if failAfter.Some? then Min(failAfter.value, all) else all
  }

  lemma {:induction false} PendingConcat(recorded: seq<string>, a: seq<string>, b: seq<string>)
    ensures Pending(recorded, a + b) == Pending(recorded, a) + Pending(recorded, b)
  {
    if a == [] {
      assert a + b == b;
    } else {
      PendingConcat(recorded, a[1..], b);
      assert (a + b)[1..] == a[1..] + b && (a + b)[0] == a[0];
    }
  }

  lemma {:induction false} NothingPending(recorded: seq<string>, files: seq<string>)
    requires forall f | f in files :: f in recorded
    ensures Pending(recorded, files) == []
  {
    if files != [] {
      NothingPending(recorded, files[1..]);
    }
  }

  lemma {:induction false} AllPending(recorded: seq<string>, files: seq<string>)
    requires forall f | f in files :: f !in recorded
    ensures Pending(recorded, files) == files
  {
    if files != [] {
      AllPending(recorded, files[1..]);
      assert files == [files[0]] + files[1..];
    }
  }

  /** Pending is every listed file that is not recorded, as often as listed, in listed order. */
  lemma PendingMeaning(recorded: seq<string>, files: seq<string>, file: string)
    ensures Pending(recorded, files + [file]) == Pending(recorded, files) + if file in recorded then [] else [file]
    ensures multiset(Pending(recorded, files))[file] == if file in recorded then 0 else multiset(files)[file]
  {
    PendingConcat(recorded, files, [file]);
    PendingCount(recorded, files, file);
  }

  lemma {:induction false} PendingCount(recorded: seq<string>, files: seq<string>, file: string)
    ensures multiset(Pending(recorded, files))[file] == if file in recorded then 0 else multiset(files)[file]
  {
    if files != [] {
      PendingCount(recorded, files[1..], file);
      assert files == [files[0]] + files[1..];
    }
  }

  /** The file at i is skipped, or is the next pending one. */
  lemma PendingAt(recorded: seq<string>, files: seq<string>, i: nat)
    requires i < |files|
    ensures Pending(recorded, files[..i + 1]) ==
      Pending(recorded, files[..i]) + if files[i] in recorded then [] else [files[i]]
    ensures Pending(recorded, files[..i + 1]) <= Pending(recorded, files)
  {
    var before, one, rest := files[..i], [files[i]], files[i + 1..];
    assert files[..i + 1] == before + one && files == (before + one) + rest;
    PendingConcat(recorded, before, one);
    PendingConcat(recorded, before + one, rest);
    assert Pending(recorded, one) == if files[i] in recorded then [] else one;
  }

  /** The database: `recorded` is schema_migrations, `executed` the scripts whose transaction committed. */
  class Database {
    var recorded: seq<string>
    var executed: seq<string>

    constructor ()
      ensures recorded == [] && executed == []
    {
      recorded, executed := [], [];
    }

    /**
     * run_migrations: the script and its record commit together. `failAfter` is the number of migrations committed
     * when an SQL error (rolled back) or a crash ends the run; None means the run gets to its end.
     */
    method RunMigrations(glob: seq<string>, failAfter: Option<nat>)
      returns (finished: bool, appliedCount: nat, skippedCount: nat)
      modifies this
      ensures var files := MigrationFiles(glob);
        var n := Commits(old(recorded), files, failAfter);
        && recorded == old(recorded) + Pending(old(recorded), files)[..n]
        && executed == old(executed) + Pending(old(recorded), files)[..n]
        && appliedCount == n
      ensures var p := Pending(old(recorded), MigrationFiles(glob));
        var k := if failAfter.Some? && failAfter.value < |p| then failAfter.value else |p|;
        recorded == old(recorded) + p[..k] && executed == old(executed) + p[..k] && appliedCount == k
      ensures finished ==> appliedCount + skippedCount == |MigrationFiles(glob)|
      ensures finished <==> failAfter.None? || failAfter.value >= |Pending(old(recorded), MigrationFiles(glob))|
    {
      var applied := recorded;
      var files := MigrationFiles(glob);
      ghost var all := Pending(applied, files);
      appliedCount, skippedCount := 0, 0;
      var i := 0;
      while i < |files|
        invariant 0 <= i <= |files|
        invariant Pending(applied, files[..i]) <= all && appliedCount == |Pending(applied, files[..i])|
        invariant recorded == applied + Pending(applied, files[..i])
        invariant executed == old(executed) + Pending(applied, files[..i])
        invariant appliedCount + skippedCount == i
        invariant failAfter.Some? ==> appliedCount <= failAfter.value
      {
        var version := files[i];
        PendingAt(applied, files, i);
        if version in applied {
          skippedCount := skippedCount + 1;
        } else {
          if failAfter == Some(appliedCount) {
            return false, appliedCount, skippedCount;
          }
          executed := executed + [version];
          recorded := recorded + [version];
          appliedCount := appliedCount + 1;
        }
        i := i + 1;
      }
      assert files[..|files|] == files;
      finished := true;
    }
  }

  // --- Any sequence of runs ---

  datatype Attempt = Attempt(glob: seq<string>, failAfter: Option<nat>)

  datatype Tables = Tables(recorded: seq<string>, executed: seq<string>)

  function AfterAttempt(db: Tables, a: Attempt): Tables {
    var pending := Pending(db.recorded, MigrationFiles(a.glob));
    var done := pending[..Commits(db.recorded, MigrationFiles(a.glob), a.failAfter)];
    Tables(db.recorded + done, db.executed + done)
  }

  function AfterAttempts(attempts: seq<Attempt>): Tables {
    if attempts == [] then Tables([], []) else
      AfterAttempt(AfterAttempts(attempts[..|attempts| - 1]), attempts[|attempts| - 1])
  }

  /** A run keeps exactly the migrations before its failure, each script with its record. */
  lemma AttemptKeeps(db: Tables, a: Attempt)
    ensures var p, db' := Pending(db.recorded, MigrationFiles(a.glob)), AfterAttempt(db, a);
      var k := if a.failAfter.Some? && a.failAfter.value < |p| then a.failAfter.value else |p|;
      db'.recorded == db.recorded + p[..k] && db'.executed == db.executed + p[..k]
  {
  }

  lemma PendingAfterKeeping(recorded: seq<string>, files: seq<string>, k: nat)
    requires DistinctNames(files) && k <= |Pending(recorded, files)|
    ensures Pending(recorded + Pending(recorded, files)[..k], files) == Pending(recorded, files)[k..]
  {
    var p := Pending(recorded, files);
    PendingTwice(recorded, p[..k], files);
    PendingNames(recorded, files);
    NotInFront(p, k);
    assert p == p[..k] + p[k..];
    PendingConcat(p[..k], p[..k], p[k..]);
    NothingPending(p[..k], p[..k]);
    AllPending(p[..k], p[k..]);
  }

  lemma {:induction false} PendingTwice(a: seq<string>, b: seq<string>, files: seq<string>)
    ensures Pending(a + b, files) == Pending(b, Pending(a, files))
  {
    if files != [] {
      PendingTwice(a, b, files[1..]);
      if files[0] in a {
        assert [] + Pending(a, files[1..]) == Pending(a, files[1..]);
      } else {
        assert ([files[0]] + Pending(a, files[1..]))[1..] == Pending(a, files[1..]);
      }
    }
  }

  lemma {:induction false} PendingNames(recorded: seq<string>, files: seq<string>)
    requires DistinctNames(files)
    ensures DistinctNames(Pending(recorded, files))
    ensures forall f | f in Pending(recorded, files) :: f in files && f !in recorded
  {
    if files != [] {
      assert DistinctNames(files[1..]) by {
        assert forall i | 0 <= i < |files[1..]| :: files[1..][i] == files[i + 1];
      }
      PendingNames(recorded, files[1..]);
      assert files == [files[0]] + files[1..];
      assert files[0] !in files[1..] by {
        assert forall i | 0 <= i < |files[1..]| :: files[1..][i] == files[i + 1];
      }
    }
  }

  lemma NotInFront(p: seq<string>, k: nat)
    requires DistinctNames(p) && k <= |p|
    ensures forall f | f in p[k..] :: f !in p[..k]
  {
    forall f | f in p[k..]
      ensures f !in p[..k]
    {
      var j :| 0 <= j < |p[k..]| && p[k..][j] == f;
      assert p[k + j] == f;
    }
  }

  /**
   * A run that fails after k migrations and a later run over the same files that finishes: the second executes exactly
   * the ones that the first did not get to.
   */
  lemma ResumesWhereItStopped(db: Tables, a: Attempt, k: nat, a': Attempt)
    requires DistinctNames(MigrationFiles(a.glob)) && MigrationFiles(a'.glob) == MigrationFiles(a.glob)
    requires a.failAfter == Some(k) && k <= |Pending(db.recorded, MigrationFiles(a.glob))| && a'.failAfter.None?
    ensures var p, failed := Pending(db.recorded, MigrationFiles(a.glob)), AfterAttempt(db, a);
      && failed == Tables(db.recorded + p[..k], db.executed + p[..k])
      && AfterAttempt(failed, a') == Tables(failed.recorded + p[k..], failed.executed + p[k..])
  {
    AttemptKeeps(db, a);
    PendingAfterKeeping(db.recorded, MigrationFiles(a.glob), k);
    AttemptKeeps(AfterAttempt(db, a), a');
  }

  /**
   * Over any runs, on files that may change between them: no script is ever executed twice, and exactly the executed
   * ones are recorded.
   */
  lemma {:induction false} NeverExecutedTwice(attempts: seq<Attempt>)
    requires forall a | a in attempts :: DistinctNames(MigrationFiles(a.glob))
    ensures var db := AfterAttempts(attempts); db.executed == db.recorded && DistinctNames(db.executed)
  {
    if attempts != [] {
      var before, a := attempts[..|attempts| - 1], attempts[|attempts| - 1];
      NeverExecutedTwice(before);
      var db, files := AfterAttempts(before), MigrationFiles(a.glob);
      PendingNames(db.recorded, files);
      var k := Commits(db.recorded, files, a.failAfter);
      DistinctAppend(db.executed, Pending(db.recorded, files)[..k]);
    }
  }

  lemma DistinctAppend(a: seq<string>, b: seq<string>)
    requires DistinctNames(a) && DistinctNames(b) && forall f | f in b :: f !in a
    ensures DistinctNames(a + b)
  {
    forall i, j | 0 <= i < j < |a + b|
      ensures (a + b)[i] != (a + b)[j]
    {
      if i < |a| && |a| <= j {
        assert (a + b)[j] == b[j - |a|] && b[j - |a|] in b;
      }
    }
  }

  lemma NoRepeats(files: seq<string>, m: nat)
    requires DistinctPrefixes(files) && m <= |files|
    ensures Pending(files[..m], files) == files[m..]
  {
    assert files == files[..m] + files[m..];
    PendingConcat(files[..m], files[..m], files[m..]);
    NothingPending(files[..m], files[..m]);
    AllPending(files[..m], files[m..]);
  }

  /** One more run moves the applied prefix forward, to the end when the run finishes. */
  lemma PrefixStep(files: seq<string>, m: nat, a: Attempt) returns (m': nat)
    requires DistinctPrefixes(files) && MigrationFiles(a.glob) == files && m <= |files|
    ensures m <= m' <= |files|
    ensures AfterAttempt(Tables(files[..m], files[..m]), a) == Tables(files[..m'], files[..m'])
    ensures a.failAfter.None? ==> m' == |files|
  {
    NoRepeats(files, m);
    m' := m + Commits(files[..m], files, a.failAfter);
    assert files[..m] + files[m..][..m' - m] == files[..m'];
  }

  /**
   * Over any sequence of runs with errors or crashes anywhere, on one set of files with distinct prefixes, listed in
   * any order: the committed migrations are a prefix of the sorted list, recorded exactly, each committed once.
   */
  lemma {:induction false} CommittedIsPrefix(glob: seq<string>, attempts: seq<Attempt>) returns (m: nat)
    requires DistinctPrefixes(Numbered(glob)) && forall a | a in attempts :: multiset(a.glob) == multiset(glob)
    ensures var files := MigrationFiles(glob);
      && m <= |files| && AfterAttempts(attempts) == Tables(files[..m], files[..m])
      && ((exists a :: a in attempts && a.failAfter.None?) ==> m == |files|)
      && DistinctPrefixes(files) && InOrder(files)
  {
    var files := MigrationFiles(glob);
    DirectoryOrderIrrelevant(glob, glob);
    if attempts == [] {
      m := 0;
    } else {
      var before, a := attempts[..|attempts| - 1], attempts[|attempts| - 1];
      assert attempts == before + [a];
      m := CommittedIsPrefix(glob, before);
      DirectoryOrderIrrelevant(glob, a.glob);
      m := PrefixStep(files, m, a);
    }
  }
}
