/** The `result_category` report: the votes of every user summed per key,
    the keys split into (category, option), and each category's options
    listed by descending count, ties in the order the options were first
    summed. */
module Tally {
  import opened Dicts
  import opened VoteKeys
  import opened Accounting

  type Counts = Dict<string, int>

  /** One category of the report: its name and its (option, count) lines. */
  datatype Section = Section(category: string, options: seq<(string, int)>)

  /** "No votes yet", or the sections in the order their categories were met. */
  datatype Report = NoVotes | Results(sections: seq<Section>)

  // ---------------------------------------------------------------------
  // Summing

  /** `total[key] = total.get(key, 0) + count`. */
  function AddCount(total: Counts, key: string, count: int): Counts
  {
    Put(total, key, GetOr(total, key, 0) + count)
  }

  /** Adds the entries of `es` into `total`, first to last. */
  function AddEntries(total: Counts, es: Counts): Counts
  {
    if es == [] then total
    else AddCount(AddEntries(total, es[..|es| - 1]), es[|es| - 1].0, es[|es| - 1].1)
  }

  /** The `total` dictionary after the summing loop has seen every user. */
  function Totals(votes: Ledger): Counts
  {
    if votes == [] then []
    else AddEntries(Totals(votes[..|votes| - 1]), votes[|votes| - 1].1)
  }

  /** What the entries of `es` contribute to key `k`. */
  function CountFor(es: Counts, k: string): int
  {
    if es == [] then 0
    else CountFor(es[..|es| - 1], k) + (if es[|es| - 1].0 == k then es[|es| - 1].1 else 0)
  }

  /** The votes all users cast for key `k`. */
  function KeySum(votes: Ledger, k: string): int
  {
    if votes == [] then 0
    else KeySum(votes[..|votes| - 1], k) + GetOr(votes[|votes| - 1].1, k, 0)
  }

  /** Some user has voted for key `k`. */
  ghost predicate Voted(votes: Ledger, k: string)
  {
    exists i :: 0 <= i < |votes| && k in Keys(votes[i].1)
  }

  /** Every user's counts are a well-formed dictionary. */
  ghost predicate EntriesValid(votes: Ledger)
  {
    forall i :: 0 <= i < |votes| ==> ValidDict(votes[i].1)
  }

  /** A key is present in a non-empty dictionary exactly when it is the last
      key or present before it. */
  lemma KeysLast<K, V>(d: Dict<K, V>, k: K)
    requires d != []
    ensures k in Keys(d) <==> k in Keys(d[..|d| - 1]) || k == d[|d| - 1].0
  {
    assert Keys(d) == Keys(d[..|d| - 1]) + [d[|d| - 1].0];
  }

  /** Summing entries into `total` adds, for every key, what the entries
      contribute to it, and the keys become those of both. */
  lemma {:induction false} AddEntriesSum(total: Counts, es: Counts, k: string)
    ensures GetOr(AddEntries(total, es), k, 0) == GetOr(total, k, 0) + CountFor(es, k)
    ensures k in Keys(AddEntries(total, es)) <==> k in Keys(total) || k in Keys(es)
  {
    if es != [] {
      var n := |es| - 1;
      var before := AddEntries(total, es[..n]);
      AddEntriesSum(total, es[..n], k);
      var v := GetOr(before, es[n].0, 0) + es[n].1;
      PutGet(before, es[n].0, v, k);
      PutKeys(before, es[n].0, v);
      GetFound(before, es[n].0);
      KeysLast(es, k);
    }
  }

  /** Summing keeps the total a well-formed dictionary. */
  lemma {:induction false} AddEntriesValid(total: Counts, es: Counts)
    requires ValidDict(total)
    ensures ValidDict(AddEntries(total, es))
  {
    if es != [] {
      var n := |es| - 1;
      var before := AddEntries(total, es[..n]);
      AddEntriesValid(total, es[..n]);
      PutValid(before, es[n].0, GetOr(before, es[n].0, 0) + es[n].1);
    }
  }

  /** A key absent from `es` gets nothing from it. */
  lemma {:induction false} CountForAbsent(es: Counts, k: string)
    requires k !in Keys(es)
    ensures CountFor(es, k) == 0
  {
    if es != [] {
      KeysLast(es, k);
      CountForAbsent(es[..|es| - 1], k);
    }
  }

  /** In a well-formed dictionary a key's contribution is its one count. */
  lemma {:induction false} CountForValid(es: Counts, k: string)
    requires ValidDict(es)
    ensures CountFor(es, k) == GetOr(es, k, 0)
  {
    if es != [] {
      var n := |es| - 1;
      PrefixValid(es, n);
      LastKeyFresh(es);
      assert es == es[..n] + [es[n]];
      GetAppend(es[..n], es[n].0, es[n].1, k);
      GetFound(es[..n], k);
      if k == es[n].0 {
        CountForAbsent(es[..n], k);
      } else {
        CountForValid(es[..n], k);
      }
    }
  }

  /** The summing loop's result: every key any user voted for, with the sum
      over users of that user's count, and no other key; and no key twice. */
  lemma {:induction false} TotalsSum(votes: Ledger, k: string)
    requires EntriesValid(votes)
    ensures ValidDict(Totals(votes))
    ensures GetOr(Totals(votes), k, 0) == KeySum(votes, k)
    ensures k in Keys(Totals(votes)) <==> Voted(votes, k)
  {
    if votes != [] {
      var n := |votes| - 1;
      var prefix := votes[..n];
      assert EntriesValid(prefix) by {
        forall i | 0 <= i < n ensures ValidDict(prefix[i].1) {
          assert prefix[i] == votes[i];
        }
      }
      TotalsSum(prefix, k);
      AddEntriesSum(Totals(prefix), votes[n].1, k);
      AddEntriesValid(Totals(prefix), votes[n].1);
      CountForValid(votes[n].1, k);
      if Voted(votes, k) {
        var i :| 0 <= i < |votes| && k in Keys(votes[i].1);
        if i < n {
          assert prefix[i] == votes[i];
        }
      }
      if Voted(prefix, k) {
        var i :| 0 <= i < n && k in Keys(prefix[i].1);
        assert prefix[i] == votes[i];
      }
    }
  }

  /** Both levels of a well-formed ledger give well-formed user counts. */
  lemma LedgerEntriesValid(votes: Ledger)
    requires LedgerValid(votes)
    ensures EntriesValid(votes)
  {
    forall i | 0 <= i < |votes| ensures ValidDict(votes[i].1) {
      GetAt(votes, i);
      assert UserVotes(votes, votes[i].0) == votes[i].1;
    }
  }

  // ---------------------------------------------------------------------
  // Grouping

  type Groups = Dict<string, Counts>

  /** One round of the grouping loop: the key's option gets the key's count
      within the key's category, the category added when new. */
  function GroupStep(groups: Groups, key: string, count: int): Groups
  {
    var (category, option) := SplitKey(key);
    Put(groups, category, Put(GetOr(groups, category, []), option, count))
  }

  /** `category_totals` after the grouping loop has seen every key of `total`. */
  function Group(total: Counts): Groups
  {
    if total == [] then []
    else GroupStep(Group(total[..|total| - 1]), total[|total| - 1].0, total[|total| - 1].1)
  }

  /** The count of the last key of `total` that splits to (category, option). */
  function LastBySplit(total: Counts, category: string, option: string): Option<int>
  {
    if total == [] then None
    else if SplitKey(total[|total| - 1].0) == (category, option) then Some(total[|total| - 1].1)
    else LastBySplit(total[..|total| - 1], category, option)
  }

  /** `category_totals.setdefault(category, {})` followed by the assignment of
      the option is one grouping step. */
  lemma SetDefaultThenAssign(groups: Groups, key: string, count: int)
    ensures var (category, option) := SplitKey(key);
      var withCategory := if category in Keys(groups) then groups else Put(groups, category, []);
      Put(withCategory, category, Put(GetOr(withCategory, category, []), option, count))
        == GroupStep(groups, key, count)
  {
    var (category, option) := SplitKey(key);
    if category !in Keys(groups) {
      GetFound(groups, category);
      PutGet(groups, category, [], category);
      PutPut(groups, category, [], Put(GetOr(groups, category, []), option, count));
    }
  }

  /** Grouping files every option under its category with the count of the
      last key that splits to it; a category is present exactly when some key
      splits into it. */
  lemma {:induction false} GroupGet(total: Counts, category: string, option: string)
    ensures Get(GetOr(Group(total), category, []), option) == LastBySplit(total, category, option)
    ensures category in Keys(Group(total)) <==>
      exists i :: 0 <= i < |total| && SplitKey(total[i].0).0 == category
  {
    if total != [] {
      var n := |total| - 1;
      var before := Group(total[..n]);
      var (c, o) := SplitKey(total[n].0);
      var inner := Put(GetOr(before, c, []), o, total[n].1);
      GroupGet(total[..n], category, option);
      PutGet(before, c, inner, category);
      PutGet(GetOr(before, c, []), o, total[n].1, option);
      PutKeys(before, c, inner);
      if exists i :: 0 <= i < |total| && SplitKey(total[i].0).0 == category {
        var i :| 0 <= i < |total| && SplitKey(total[i].0).0 == category;
        if i < n {
          assert total[..n][i] == total[i];
        }
      }
      if exists i :: 0 <= i < n && SplitKey(total[..n][i].0).0 == category {
        var i :| 0 <= i < n && SplitKey(total[..n][i].0).0 == category;
        assert total[..n][i] == total[i];
      }
    }
  }

  /** Grouping yields well-formed dictionaries at both levels. */
  lemma {:induction false} GroupValid(total: Counts, category: string)
    ensures ValidDict(Group(total))
    ensures ValidDict(GetOr(Group(total), category, []))
  {
    if total != [] {
      var n := |total| - 1;
      var before := Group(total[..n]);
      var (c, o) := SplitKey(total[n].0);
      GroupValid(total[..n], c);
      GroupValid(total[..n], category);
      var inner := Put(GetOr(before, c, []), o, total[n].1);
      PutValid(GetOr(before, c, []), o, total[n].1);
      PutValid(before, c, inner);
      PutGet(before, c, inner, category);
    }
  }

  /** When every key holds a separator, the option a category lists is the
      count of exactly the key `category:option`. */
  lemma {:induction false} SeparatedLookup(total: Counts, category: string, option: string)
    requires ValidDict(total)
    requires forall i :: 0 <= i < |total| ==> Separator in total[i].0
    requires Separator !in category
    ensures LastBySplit(total, category, option) == Get(total, MakeKey(category, option))
  {
    if total != [] {
      var n := |total| - 1;
      var key := MakeKey(category, option);
      PrefixValid(total, n);
      LastKeyFresh(total);
      SeparatedLookup(total[..n], category, option);
      assert total == total[..n] + [total[n]];
      GetAppend(total[..n], total[n].0, total[n].1, key);
      GetFound(total[..n], key);
      SplitMakeKey(category, option);
      if SplitKey(total[n].0) == (category, option) {
        SplitThenMake(total[n].0);
      }
    }
  }

  // ---------------------------------------------------------------------
  // Sorting

  /** Counts never rise from one line to the next. */
  ghost predicate NonIncreasing(s: seq<(string, int)>)
  {
    forall i, j :: 0 <= i < j < |s| ==> s[i].1 >= s[j].1
  }

  /** The lines of `s` with count `n`, in their order in `s`. */
  function WithCount(s: seq<(string, int)>, n: int): seq<(string, int)>
  {
    if s == [] then []
    else (if s[0].1 == n then [s[0]] else []) + WithCount(s[1..], n)
  }

  /** Places `x` before the first line whose count does not exceed its own. */
  function Insert(x: (string, int), s: seq<(string, int)>): seq<(string, int)>
  {
    if s == [] then [x]
    else if s[0].1 <= x.1 then [x] + s
    else [s[0]] + Insert(x, s[1..])
  }

  /** `sorted(items, key=lambda x: x[1], reverse=True)`. */
  function SortDesc(s: seq<(string, int)>): seq<(string, int)>
  {
    if s == [] then [] else Insert(s[0], SortDesc(s[1..]))
  }

  /** Inserting keeps every line and adds `x`. */
  lemma {:induction false} InsertPermutes(x: (string, int), s: seq<(string, int)>)
    ensures multiset(Insert(x, s)) == multiset(s) + multiset{x}
  {
    if s != [] && s[0].1 > x.1 {
      InsertPermutes(x, s[1..]);
      assert s == [s[0]] + s[1..];
    }
  }

  /** Inserting `x` puts it first among the lines of its count. */
  lemma {:induction false} InsertStable(x: (string, int), s: seq<(string, int)>, n: int)
    ensures WithCount(Insert(x, s), n) == (if x.1 == n then [x] else []) + WithCount(s, n)
  {
    if s != [] {
      var r := Insert(x, s);
      if s[0].1 > x.1 {
        InsertStable(x, s[1..], n);
        assert r[1..] == Insert(x, s[1..]);
      } else {
        assert r[1..] == s;
      }
    }
  }

  /** Inserting into a list ordered by non-increasing count keeps it so. */
  lemma {:induction false} InsertOrdered(x: (string, int), s: seq<(string, int)>)
    requires NonIncreasing(s)
    ensures NonIncreasing(Insert(x, s))
  {
    if s != [] && s[0].1 > x.1 {
      InsertOrdered(x, s[1..]);
      InsertPermutes(x, s[1..]);
      var r := Insert(x, s);
      assert r[1..] == Insert(x, s[1..]);
      forall j | 0 < j < |r| ensures r[0].1 >= r[j].1 {
        assert r[j] in multiset(Insert(x, s[1..]));
        if r[j] != x {
          assert r[j] in s[1..];
          var k :| 0 <= k < |s[1..]| && s[1..][k] == r[j];
          assert s[k + 1] == r[j];
        }
      }
    }
  }

  /** The sort lists every line once, by non-increasing count, lines of
      equal count in their original order. */
  lemma {:induction false} SortDescSorted(s: seq<(string, int)>)
    ensures NonIncreasing(SortDesc(s))
    ensures multiset(SortDesc(s)) == multiset(s)
    ensures forall n :: WithCount(SortDesc(s), n) == WithCount(s, n)
  {
    if s != [] {
      SortDescSorted(s[1..]);
      InsertOrdered(s[0], SortDesc(s[1..]));
      InsertPermutes(s[0], SortDesc(s[1..]));
      forall n ensures WithCount(SortDesc(s), n) == WithCount(s, n) {
        InsertStable(s[0], SortDesc(s[1..]), n);
      }
      assert s == [s[0]] + s[1..];
    }
  }

  /** A line selected by count is in `s` and has that count. */
  lemma WithCountMember(s: seq<(string, int)>, n: int, x: (string, int))
    requires x in WithCount(s, n)
    ensures x in s && x.1 == n
  {
    if s != [] && x !in (if s[0].1 == n then [s[0]] else []) {
      WithCountMember(s[1..], n, x);
    }
  }

  /** A list has no line of any count exactly when it is empty. */
  lemma WithCountEmpty(s: seq<(string, int)>)
    ensures (forall n :: WithCount(s, n) == []) <==> s == []
  {
    if s != [] {
      assert WithCount(s, s[0].1)[0] == s[0];
    }
  }

  /** Two non-empty lists ordered by non-increasing count that agree on the
      lines of every count start with the same line. */
  lemma HeadsAgree(u: seq<(string, int)>, v: seq<(string, int)>)
    requires NonIncreasing(u) && NonIncreasing(v) && u != [] && v != []
    requires forall n :: WithCount(u, n) == WithCount(v, n)
    ensures u[0] == v[0]
  {
    var mu, mv := u[0].1, v[0].1;
    assert WithCount(u, mu)[0] == u[0];
    assert WithCount(v, mv)[0] == v[0];
    WithCountMember(v, mu, u[0]);
    WithCountMember(u, mv, v[0]);
    var i :| 0 <= i < |v| && v[i] == u[0];
    var j :| 0 <= j < |u| && u[j] == v[0];
    assert mu == mv;
  }

  /** Two lists ordered by non-increasing count that agree on the lines of
      every count, in order, are the same list: a stable descending sort has
      one result. */
  lemma {:induction false} StableSortUnique(u: seq<(string, int)>, v: seq<(string, int)>)
    requires NonIncreasing(u) && NonIncreasing(v)
    requires forall n :: WithCount(u, n) == WithCount(v, n)
    ensures u == v
  {
    if u == [] || v == [] {
      WithCountEmpty(u);
      WithCountEmpty(v);
    } else {
      HeadsAgree(u, v);
      forall n ensures WithCount(u[1..], n) == WithCount(v[1..], n) {
        var head := if u[0].1 == n then [u[0]] else [];
        assert WithCount(u, n) == head + WithCount(u[1..], n);
        assert WithCount(v, n) == head + WithCount(v[1..], n);
        assert WithCount(u[1..], n) == WithCount(u, n)[|head|..];
        assert WithCount(v[1..], n) == WithCount(v, n)[|head|..];
      }
      StableSortUnique(u[1..], v[1..]);
      assert u == [u[0]] + u[1..];
      assert v == [v[0]] + v[1..];
    }
  }

  /** Any list that orders the lines of `s` by non-increasing count and keeps
      lines of equal count in their order in `s` is `SortDesc(s)`. */
  lemma SortDescIsStableSort(s: seq<(string, int)>, t: seq<(string, int)>)
    requires NonIncreasing(t)
    requires forall n :: WithCount(t, n) == WithCount(s, n)
    ensures t == SortDesc(s)
  {
    SortDescSorted(s);
    StableSortUnique(t, SortDesc(s));
  }

  // ---------------------------------------------------------------------
  // The report

  /** One section per category, options sorted. */
  function Sections(groups: Groups): seq<Section>
  {
    seq(|groups|, i requires 0 <= i < |groups| => Section(groups[i].0, SortDesc(groups[i].1)))
  }

  /** The report `result_category` sends for the votes document. */
  function Tally(votes: Ledger): Report
  {
    if votes == [] then NoVotes else Results(Sections(Group(Totals(votes))))
  }

  /** A line is in a well-formed dictionary exactly when `Get` finds it. */
  lemma InIffGet(d: Counts, k: string, n: int)
    requires ValidDict(d)
    ensures (k, n) in d <==> Get(d, k) == Some(n)
  {
    if (k, n) in d {
      var i :| 0 <= i < |d| && d[i] == (k, n);
      GetAt(d, i);
    }
    if Get(d, k) == Some(n) {
      GetSomeAt(d, k);
    }
  }

  /** The lines a section of the report lists are the entries of that
      category's group. */
  lemma SectionLines(groups: Groups, category: string, option: string, n: int)
    requires ValidDict(groups) && ValidDict(GetOr(groups, category, []))
    ensures (exists s :: s in Sections(groups) && s.category == category && (option, n) in s.options)
            <==> Get(GetOr(groups, category, []), option) == Some(n)
  {
    var inner := GetOr(groups, category, []);
    InIffGet(inner, option, n);
    SortDescSorted(inner);
    if exists s :: s in Sections(groups) && s.category == category && (option, n) in s.options {
      var s :| s in Sections(groups) && s.category == category && (option, n) in s.options;
      var i :| 0 <= i < |groups| && Sections(groups)[i] == s;
      GetAt(groups, i);
      SortDescSorted(groups[i].1);
      assert (option, n) in multiset(groups[i].1);
    }
    if Get(inner, option) == Some(n) {
      assert Get(groups, category).Some?;
      GetSomeAt(groups, category);
      var i :| 0 <= i < |groups| && groups[i] == (category, inner);
      assert (option, n) in multiset(SortDesc(inner));
      assert Sections(groups)[i].options == SortDesc(inner);
    }
  }

  /** The report of a ledger whose keys are all `category:option` keys lists
      the option under the category with count `n` exactly when some user
      voted for it and `n` is the sum of all users' votes for it. */
  lemma TallyReportsSums(votes: Ledger, category: string, option: string, n: int)
    requires LedgerValid(votes) && votes != []
    requires KeysSeparated(votes)
    requires Separator !in category
    ensures (exists s :: s in Tally(votes).sections && s.category == category && (option, n) in s.options)
            <==> Voted(votes, MakeKey(category, option)) && n == KeySum(votes, MakeKey(category, option))
  {
    var key := MakeKey(category, option);
    var total := Totals(votes);
    LedgerEntriesValid(votes);
    TotalsSum(votes, key);
    forall i | 0 <= i < |total| ensures Separator in total[i].0 {
      TotalsSum(votes, total[i].0);
      assert Keys(total)[i] == total[i].0;
      var u, j :| 0 <= u < |votes| && 0 <= j < |votes[u].1| && votes[u].1[j].0 == total[i].0;
    }
    GroupValid(total, category);
    GroupGet(total, category, option);
    SeparatedLookup(total, category, option);
    SectionLines(Group(total), category, option, n);
    GetFound(total, key);
  }

  /** Each section lists its options by non-increasing count, and no
      category has two sections. */
  lemma TallyShape(votes: Ledger)
    requires votes != []
    ensures forall i :: 0 <= i < |Tally(votes).sections| ==> NonIncreasing(Tally(votes).sections[i].options)
    ensures forall i, j :: 0 <= i < j < |Tally(votes).sections| ==>
      Tally(votes).sections[i].category != Tally(votes).sections[j].category
  {
    var groups := Group(Totals(votes));
    GroupValid(Totals(votes), "");
    forall i | 0 <= i < |groups| ensures NonIncreasing(Sections(groups)[i].options) {
      SortDescSorted(groups[i].1);
    }
    forall i, j | 0 <= i < j < |groups| ensures Sections(groups)[i].category != Sections(groups)[j].category {
      assert Keys(groups)[i] != Keys(groups)[j];
    }
  }

  /** Summing one user's votes for `x` and for the unclassified key of `x`
      keeps both keys apart. */
  lemma CollisionTotals(user: UserId)
    ensures Totals([(user, [("x", 1), (MakeKey(Unclassified, "x"), 2)])])
      == [("x", 1), (MakeKey(Unclassified, "x"), 2)]
  {
    var key := MakeKey(Unclassified, "x");
    var counts: Counts := [("x", 1), (key, 2)];
    var votes: Ledger := [(user, counts)];
    SplitCollision("x");
    assert votes[..0] == [];
    assert counts[..1] == [("x", 1)];
    assert counts[..1][..0] == [];
    assert AddEntries([], counts[..1]) == [("x", 1)];
    assert Get([("x", 1)], key) == None;
    assert AddEntries([], counts) == counts;
    assert Totals(votes[..0]) == [];
  }

  /** Grouping the two keys files both under one line of the unclassified
      category, and the later count replaces the earlier one. */
  lemma CollisionGroup()
    ensures Group([("x", 1), (MakeKey(Unclassified, "x"), 2)]) == [(Unclassified, [("x", 2)])]
  {
    var key := MakeKey(Unclassified, "x");
    var total: Counts := [("x", 1), (key, 2)];
    SplitCollision("x");
    SplitWithoutSeparator("x");
    assert total[..1] == [("x", 1)];
    assert total[..1][..0] == [];
    var g1: Groups := [(Unclassified, [("x", 1)])];
    assert Group(total[..1]) == g1;
    assert GetOr(g1, Unclassified, []) == [("x", 1)];
    assert Put([("x", 1)], "x", 2) == [("x", 2)];
    assert Group(total) == GroupStep(g1, key, 2);
  }

  /** A key without a separator and the unclassified key of the same option
      land on one line of the report: one user's vote for `x` disappears,
      replaced by the count of `未分類:x`. */
  lemma UnclassifiedCollision(user: UserId)
    ensures Tally([(user, [("x", 1), (MakeKey(Unclassified, "x"), 2)])])
      == Results([Section(Unclassified, [("x", 2)])])
  {
    CollisionTotals(user);
    CollisionGroup();
    assert SortDesc([("x", 2)]) == [("x", 2)];
  }

  /** A ledger whose users have not voted yet still gets a report, with no
      sections; only an empty ledger gets "no votes". */
  lemma UsersWithoutVotes(user: UserId)
    ensures Tally([(user, [])]) == Results([])
  {
    var votes: Ledger := [(user, [])];
    assert votes[..0] == [];
    assert Totals(votes) == [];
    assert Sections([]) == [];
  }

  /** The summing loop of `result_category`: every user's counts added
      into one total per key. */
  method SumVotes(votes: Ledger) returns (total: Counts)
    ensures total == Totals(votes)
  {
    total := [];
    var i := 0;
    while i < |votes|
      invariant 0 <= i <= |votes|
      invariant total == Totals(votes[..i])
    {
      var counts := votes[i].1;
      var j := 0;
      while j < |counts|
        invariant 0 <= j <= |counts|
        invariant total == AddEntries(Totals(votes[..i]), counts[..j])
      {
        var (key, count) := counts[j];
        assert counts[..j + 1][..j] == counts[..j];
        total := Put(total, key, GetOr(total, key, 0) + count);
        j := j + 1;
      }
      assert counts[..j] == counts;
      assert votes[..i + 1][..i] == votes[..i];
      i := i + 1;
    }
    assert votes[..i] == votes;
  }

  /** The grouping loop of `result_category`: each key's count filed under
      its category and option. */
  method GroupTotals(total: Counts) returns (groups: Groups)
    ensures groups == Group(total)
  {
    groups := [];
    var k := 0;
    while k < |total|
      invariant 0 <= k <= |total|
      invariant groups == Group(total[..k])
    {
      var (key, count) := total[k];
      var (category, option) := SplitKey(key);
      SetDefaultThenAssign(groups, key, count);
      if category !in Keys(groups) {
        groups := Put(groups, category, []);
      }
      groups := Put(groups, category, Put(GetOr(groups, category, []), option, count));
      assert total[..k + 1][..k] == total[..k];
      k := k + 1;
    }
    assert total[..k] == total;
  }

  /** The message loop of `result_category`: one section per category, in
      category order, its options sorted. */
  method BuildSections(groups: Groups) returns (sections: seq<Section>)
    ensures sections == Sections(groups)
  {
    sections := [];
    var m := 0;
    while m < |groups|
      invariant 0 <= m <= |groups|
      invariant sections == Sections(groups[..m])
    {
      sections := sections + [Section(groups[m].0, SortDesc(groups[m].1))];
      m := m + 1;
    }
    assert groups[..m] == groups;
  }

  /** `result_category`: "no votes" for an empty votes document, otherwise
      the sections of the summed, grouped and sorted votes. */
  method ResultCategory(votes: Ledger) returns (report: Report)
    ensures report == Tally(votes)
    ensures report.NoVotes? <==> votes == []
  {
    if |votes| == 0 {
      return NoVotes;
    }
    var total := SumVotes(votes);
    var groups := GroupTotals(total);
    var sections := BuildSections(groups);
    report := Results(sections);
  }
}
