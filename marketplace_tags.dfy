/**
 * The two display-label template tags of marketplace_tags.py. Both look a
 * stored key up among (key, label) choice pairs and fall back to the key
 * itself when it is not found.
 */
module MarketplaceTags {
  import opened Wrappers
  import opened Listings

  type Choices = seq<(string, string)>

  /**
   * dict(choices).get(key): building a dictionary from pairs keeps the last
   * label given for a key, so the lookup finds the last matching pair.
   */
  function DictGet(choices: Choices, key: string): (r: Option<string>)
    ensures r.None? <==> forall i :: 0 <= i < |choices| ==> choices[i].0 != key
    ensures r.Some? ==> exists i :: 0 <= i < |choices| && choices[i] == (key, r.value)
                                    && forall j :: i < j < |choices| ==> choices[j].0 != key
    decreases |choices|
  {
    if choices == [] then None
    else
      var last := choices[|choices| - 1];
      if last.0 == key then Some(last.1)
      else
        var r := DictGet(choices[..|choices| - 1], key);
        assert forall i :: 0 <= i < |choices| - 1 ==> choices[..|choices| - 1][i] == choices[i];
        r
  }

  /** The label of the first pair whose key is key, as the early-returning loop finds it. */
  function FirstLabel(pairs: Choices, key: string): (r: Option<string>)
    ensures r.None? <==> forall i :: 0 <= i < |pairs| ==> pairs[i].0 != key
    ensures r.Some? ==> exists i :: 0 <= i < |pairs| && pairs[i] == (key, r.value)
                                    && forall j :: 0 <= j < i ==> pairs[j].0 != key
  {
    if pairs == [] then None
    else if pairs[0].0 == key then Some(pairs[0].1)
    else
      var r := FirstLabel(pairs[1..], key);
      assert r.Some? ==> exists i :: 0 <= i < |pairs| && pairs[i] == (key, r.value)
                                     && forall j :: 0 <= j < i ==> pairs[j].0 != key by {
        if r.Some? {
          var i :| 0 <= i < |pairs[1..]| && pairs[1..][i] == (key, r.value)
                   && forall j :: 0 <= j < i ==> pairs[1..][j].0 != key;
          assert pairs[i + 1] == (key, r.value);
          forall j | 0 <= j < i + 1 ensures pairs[j].0 != key {
            if j > 0 { assert pairs[j] == pairs[1..][j - 1]; }
          }
        }
      }
      r
  }

  /** get_category_display: the label of a known category key, else the value itself. */
  function GetCategoryDisplay(categoryValue: string): (r: string)
    ensures forall c :: CategoryKey(c) == categoryValue ==> r == CategoryLabel(c)
    ensures ParseCategory(categoryValue).None? ==> r == categoryValue
  {
    var found := DictGet(CategoryChoices, categoryValue);
    assert DictGet(CategoryChoices, "electronics") == Some("Electronics");
    assert DictGet(CategoryChoices, "furniture") == Some("Furniture");
    assert DictGet(CategoryChoices, "other") == Some("Other");
    if found.Some? then found.value else categoryValue
  }

  /**
   * get_subcategory_display: the label of the first subcategory of category
   * whose key is the value; the value itself when the category has no
   * subcategory list or none matches. The subcategory table is a parameter.
   */
  function GetSubcategoryDisplay(subcategoryChoices: map<string, Choices>, category: string, subcategoryValue: string): (r: string)
    ensures category !in subcategoryChoices ==> r == subcategoryValue
    ensures category in subcategoryChoices ==>
      var subs := subcategoryChoices[category];
      && ((forall i :: 0 <= i < |subs| ==> subs[i].0 != subcategoryValue) ==> r == subcategoryValue)
      && (forall i :: 0 <= i < |subs| && subs[i].0 == subcategoryValue && (forall j :: 0 <= j < i ==> subs[j].0 != subcategoryValue)
            ==> r == subs[i].1)
  {
    var subcategories := if category in subcategoryChoices then subcategoryChoices[category] else [];
    var found := FirstLabel(subcategories, subcategoryValue);
    if found.Some? then found.value else subcategoryValue
  }
}
