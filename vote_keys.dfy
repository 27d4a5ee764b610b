/** Vote keys: a (category, option) pair stored in the ledger as the single
    string `category + ":" + option`, and read back by splitting at the first
    `:`. */
module VoteKeys {

  const Separator: char := ':'

  /** The category under which the tally reports a key with no separator. */
  const Unclassified: string := "未分類"

  /** `f"{category}:{option}"`. */
  function MakeKey(category: string, option: string): (key: string)
    ensures |key| == |category| + 1 + |option|
    ensures key[|category|] == Separator
  {
    category + [Separator] + option
  }

  /** Index of the first separator in `s`, or `|s|` when there is none. */
  function FirstSeparator(s: string): (i: nat)
    ensures i <= |s|
    ensures i < |s| <==> Separator in s
    ensures i < |s| ==> s[i] == Separator
    ensures Separator !in s[..i]
  {
    if s == [] then 0
    else if s[0] == Separator then 0
    else
      var j := FirstSeparator(s[1..]);
      assert s[..j + 1] == [s[0]] + s[1..][..j];
      1 + j
  }

  /** `key.split(":", 1)` when the key holds a separator, otherwise the
      unclassified category with the whole key as its option. */
  function SplitKey(key: string): (string, string)
  {
    var i := FirstSeparator(key);
    if i < |key| then (key[..i], key[i + 1..]) else (Unclassified, key)
  }

  /** Building a key and splitting it gives back the pair, provided the
      category contains no separator. */
  lemma {:induction false} SplitMakeKey(category: string, option: string)
    requires Separator !in category
    ensures SplitKey(MakeKey(category, option)) == (category, option)
  {
    var key := MakeKey(category, option);
    var i := FirstSeparator(key);
    assert key[..|category|] == category;
    assert key[|category| + 1..] == option;
  }

  /** A key holding a separator is rebuilt exactly by its split, and its
      category part holds no separator. */
  lemma SplitThenMake(key: string)
    requires Separator in key
    ensures Separator !in SplitKey(key).0
    ensures MakeKey(SplitKey(key).0, SplitKey(key).1) == key
  {
    var i := FirstSeparator(key);
    assert key == key[..i] + [key[i]] + key[i + 1..];
  }

  /** A key without a separator is reported under the unclassified category,
      with the whole key as the option. */
  lemma SplitWithoutSeparator(key: string)
    requires Separator !in key
    ensures SplitKey(key) == (Unclassified, key)
  {
  }

  /** Splitting is one-to-one on keys that hold a separator. */
  lemma SplitInjective(k1: string, k2: string)
    requires Separator in k1 && Separator in k2
    requires SplitKey(k1) == SplitKey(k2)
    ensures k1 == k2
  {
    SplitThenMake(k1);
    SplitThenMake(k2);
  }

  /** A separator-free key and the unclassified category's key for the same
      option split alike: the two are told apart by nothing in the tally. */
  lemma SplitCollision(option: string)
    requires Separator !in option
    ensures MakeKey(Unclassified, option) != option
    ensures SplitKey(MakeKey(Unclassified, option)) == SplitKey(option)
  {
    assert Separator !in Unclassified;
    SplitMakeKey(Unclassified, option);
  }
}
