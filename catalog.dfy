/** The static category catalog: an ordered map from category name to the
    ordered list of options offered in that category. */
module Catalog {
  import opened Dicts

  /** `CATEGORIES`, in declaration order. */
  const Categories: Dict<string, seq<string>> := [
    ("テイスト", [
      "ガーリー", "スポーティ", "ネタ系", "セクシー",
      "マリン", "量産地雷系", "清楚系", "ギャル系"]),
    ("形状（上）", [
      "ホルターネック", "タンキニ", "三角ビキニ", "チューブトップ",
      "フリル付きビキニ", "ワンショルダー", "スポブラタイプ",
      "オフショル風", "クロスデザイン", "編み上げ"]),
    ("形状（下）", [
      "パレオ付き", "ショートパンツ", "サイド紐", "レイヤード",
      "ハイウエスト", "フリル付き", "スカート付き"]),
    ("色", [
      "ピンク", "オレンジ", "黒", "白",
      "ミントグリーン", "水色", "ラベンダー", "赤", "ヒョウ柄"]),
    ("小物", [
      "サングラス", "ビーチバッグ", "首輪チョーカー",
      "足首アンクレット", "シュシュ", "パーカー羽織り",
      "麦わら帽子", "日焼け後", "太ももベルト"])
  ]

  /** `CATEGORY_NAMES = list(CATEGORIES.keys())`. */
  const CategoryNames: seq<string> := Keys(Categories)

  /** `CATEGORIES[name]`; every caller passes a name taken from `CategoryNames`. */
  function OptionsOf(name: string): (opts: seq<string>)
    requires name in CategoryNames
    ensures Get(Categories, name) == Some(opts)
  {
    GetFound(Categories, name);
    Get(Categories, name).value
  }

  /** The `i`-th category name heads the `i`-th catalog entry, and its
      options are that entry's list. */
  lemma OptionsOfAt(i: nat)
    requires i < |Categories|
    ensures CategoryNames[i] == Categories[i].0
    ensures OptionsOf(CategoryNames[i]) == Categories[i].1
  {
    CatalogShape();
    GetAt(Categories, i);
  }

  /** The catalog is a well-formed map of five categories, and no category
      name contains the key separator `:`. */
  lemma CatalogShape()
    ensures ValidDict(Categories)
    ensures |CategoryNames| == 5
    ensures forall i :: 0 <= i < |CategoryNames| ==> ':' !in CategoryNames[i]
  {
    assert CategoryNames == ["テイスト", "形状（上）", "形状（下）", "色", "小物"];
  }
}
