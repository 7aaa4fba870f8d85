/**
 * The small rules of the marketplace script besides price formatting: how a
 * location suggestion is shortened, how a subcategory choice is encoded and
 * read back, the five-image cap of the create-listing picker, and the index
 * of the image gallery.
 */
module ClientScript {
  import opened Wrappers
  import opened Text
  import opened Images

  // ---------------------------------------------------------------------------
  // Location suggestions

  /**
   * The name shown for a suggestion: with more than three comma-separated
   * parts, the first three joined by ", " and trimmed; otherwise the name as
   * it is.
   */
  function SuggestionDisplayName(displayName: string): (r: string)
    ensures |SplitOn(displayName, ',')| <= 3 ==> r == displayName
  {
    var parts := SplitOn(displayName, ',');
    if |parts| > 3 then Strip(JoinWith(parts[..3], ", "), JavaScript) else displayName
  }

  /** A slice has no more occurrences of c than the whole. */
  lemma {:induction false} CountSlice(s: string, i: nat, j: nat, c: char)
    requires i <= j <= |s|
    ensures Count(s[i..j], c) <= Count(s, c)
  {
    assert s == s[..i] + (s[i..j] + s[j..]);
    CountConcat(s[..i], s[i..j] + s[j..], c);
    CountConcat(s[i..j], s[j..], c);
  }

  /** A trimmed string is a slice of the original, so it has no more commas. */
  lemma {:induction false} StripCountsNoMore(s: string, c: char)
    ensures Count(Strip(s, JavaScript), c) <= Count(s, c)
  {
    var t := TrimStart(s, JavaScript);
    var r := TrimEnd(t, JavaScript);
    assert Strip(s, JavaScript) == r;
    var a := |s| - |t|;
    assert r == s[a..a + |r|];
    CountSlice(s, a, a + |r|, c);
  }

  /** Three comma-free parts joined by ", " hold exactly two commas. */
  lemma {:induction false} JoinThreeCommas(ps: seq<string>)
    requires |ps| == 3 && forall i :: 0 <= i < 3 ==> ',' !in ps[i]
    ensures Count(JoinWith(ps, ", "), ',') == 2
  {
    JoinCons(ps, ", ");
    JoinCons(ps[1..], ", ");
    assert ps[1..][1..] == [ps[2]];
    CountAbsent(ps[0], ',');
    CountAbsent(ps[1], ',');
    CountAbsent(ps[2], ',');
    assert Count(", ", ',') == 1;
    CountConcat(ps[0] + ", ", ps[1] + ", " + ps[2], ',');
    CountConcat(ps[0], ", ", ',');
    CountConcat(ps[1] + ", ", ps[2], ',');
    CountConcat(ps[1], ", ", ',');
    assert JoinWith(ps, ", ") == (ps[0] + ", ") + ((ps[1] + ", ") + ps[2]);
  }

  /** The shown name never has more than three comma-separated parts, and shortening it again changes nothing. */
  lemma {:induction false} SuggestionHasAtMostThreeParts(displayName: string)
    ensures |SplitOn(SuggestionDisplayName(displayName), ',')| <= 3
    ensures SuggestionDisplayName(SuggestionDisplayName(displayName)) == SuggestionDisplayName(displayName)
  {
    var parts := SplitOn(displayName, ',');
    var r := SuggestionDisplayName(displayName);
    if |parts| > 3 {
      var joined := JoinWith(parts[..3], ", ");
      JoinThreeCommas(parts[..3]);
      StripCountsNoMore(joined, ',');
      SplitCount(r, ',');
    }
  }

  /**
   * With more than three parts, the shown name is the trim of a text that
   * splits at its commas into exactly the first three parts of the original,
   * the second and third each after the space that ", " adds.
   */
  lemma {:induction false} SuggestionKeepsFirstThreeParts(displayName: string)
    requires |SplitOn(displayName, ',')| > 3
    ensures
      var parts := SplitOn(displayName, ',');
      var joined := JoinWith(parts[..3], ", ");
      && SplitOn(joined, ',') == [parts[0], " " + parts[1], " " + parts[2]]
      && SuggestionDisplayName(displayName) == Strip(joined, JavaScript)
  {
    var parts := SplitOn(displayName, ',');
    var first := parts[..3];
    var ps := [parts[0], " " + parts[1], " " + parts[2]];
    assert forall i :: 0 <= i < |ps| ==> ',' !in ps[i] by {
      assert ',' !in parts[0] && ',' !in parts[1] && ',' !in parts[2];
    }
    SplitOfJoin(ps, ',');
    JoinCons(ps, ",");
    JoinCons(ps[1..], ",");
    assert ps[1..][1..] == [ps[2]];
    JoinCons(first, ", ");
    JoinCons(first[1..], ", ");
    assert first[1..][1..] == [first[2]];
    assert JoinWith(ps, ",") == JoinWith(first, ", ");
  }

  // ---------------------------------------------------------------------------
  // The subcategory value

  /** The value a subcategory button carries: the category, '-', the subcategory. */
  function SubcategoryValue(category: string, sub: string): (v: string)
    ensures |v| == |category| + 1 + |sub|
    ensures v[..|category|] == category && v[|category|] == '-' && v[|category| + 1..] == sub
  {
    category + "-" + sub
  }

  /** What the selector keeps of a value: the piece after the first '-', up to the next; None when there is no '-'. */
  function SelectedSubcategory(value: string): (r: Option<string>)
    ensures r.None? <==> '-' !in value
    ensures r.Some? ==> '-' !in r.value
  {
    var pieces := SplitOn(value, '-');
    SplitCount(value, '-');
    assert '-' !in value ==> Count(value, '-') == 0 by {
      if '-' !in value { CountAbsent(value, '-'); }
    }
    assert Count(value, '-') == 0 ==> '-' !in value by {
      if Count(value, '-') == 0 { CountPresent(value, '-'); }
    }
    if |pieces| > 1 then Some(pieces[1]) else None
  }

  /** Reading back a value built from a category and a subcategory without '-' gives the subcategory. */
  lemma {:induction false} SubcategoryRoundTrip(category: string, sub: string)
    requires '-' !in category && '-' !in sub
    ensures SelectedSubcategory(SubcategoryValue(category, sub)) == Some(sub)
  {
    var ps := [category, sub];
    SplitOfJoin(ps, '-');
    JoinCons(ps, "-");
    assert ps[1..] == [sub];
  }

  /** With a '-' inside the subcategory only its first piece is read back. */
  lemma {:induction false} DashInSubcategoryIsCut(category: string, first: string, rest: string)
    requires '-' !in category && '-' !in first
    ensures SelectedSubcategory(SubcategoryValue(category, first + "-" + rest)) == Some(first)
  {
    var ps := [category, first] + SplitOn(rest, '-');
    SplitCount(rest, '-');
    var tail := SplitOn(rest, '-');
    assert forall i :: 0 <= i < |tail| ==> '-' !in tail[i];
    assert forall i :: 0 <= i < |ps| ==> '-' !in ps[i];
    JoinOfSplit(rest, '-');
    JoinCons(ps, "-");
    assert ps[1..] == [first] + tail;
    JoinCons(ps[1..], "-");
    assert ps[1..][1..] == tail;
    SplitOfJoin(ps, '-');
    assert SubcategoryValue(category, first + "-" + rest) == JoinWith(ps, "-");
  }

  // ---------------------------------------------------------------------------
  // The create-listing image picker

  /**
   * The files selected after a pick: nothing is taken when the pick is empty
   * or the selection is full; otherwise the picked files are appended in
   * order until there are five.
   */
  function AfterPicking(current: seq<Upload>, picked: seq<Upload>): (r: seq<Upload>)
    ensures |current| <= MaxListingImages ==> |r| <= MaxListingImages
    ensures |current| <= |r| <= |current| + |picked| && r[..|current|] == current
    ensures r == current + picked[..|r| - |current|]
    ensures |current| < MaxListingImages ==>
      |r| == if |current| + |picked| <= MaxListingImages then |current| + |picked| else MaxListingImages
  {
    var availableSlots := 5 - |current|;
    if picked == [] || availableSlots <= 0 then
      assert picked[..0] == [];
      current
    else
      var k := if |picked| < availableSlots then |picked| else availableSlots;
      current + picked[..k]
  }

  class ImagePicker {
    var selected: seq<Upload>

    ghost predicate Valid()
      reads this
    {
      |selected| <= MaxListingImages
    }

    constructor ()
      ensures Valid() && selected == []
    {
      selected := [];
    }

    /** handleCreateImagePreview: refuses every file when full, otherwise pushes the first ones that fit. */
    method Pick(picked: seq<Upload>) returns (refused: bool)
      requires Valid()
      modifies this
      ensures Valid()
      ensures selected == AfterPicking(old(selected), picked)
      ensures refused <==> picked != [] && |old(selected)| >= MaxListingImages
    {
      refused := false;
      if picked == [] {
        return;
      }
      var availableSlots := 5 - |selected|;
      if availableSlots <= 0 {
        refused := true;
        return;
      }
      var count := if |picked| < availableSlots then |picked| else availableSlots;
      var filesToAdd := picked[..count];
      for i := 0 to |filesToAdd|
        invariant selected == old(selected) + filesToAdd[..i]
      {
        selected := selected + [filesToAdd[i]];
      }
    }

    /** closeAddListingModal empties the selection. */
    method Close()
      modifies this
      ensures Valid() && selected == []
    {
      selected := [];
    }
  }

  // ---------------------------------------------------------------------------
  // The image gallery

  datatype GalleryImage = GalleryImage(url: string, alt: string)

  /**
   * The images the gallery opens with: the card's comma-separated image list,
   * each entry trimmed, or the placeholder image when the card has none (or
   * an empty list).
   */
  function GalleryImages(imagesData: Option<string>, placeholder: string): (r: seq<GalleryImage>)
    ensures |r| >= 1
    ensures imagesData.Some? && imagesData.value != "" ==>
      && |r| == |SplitOn(imagesData.value, ',')|
      && forall i :: 0 <= i < |r| ==> r[i].url == Strip(SplitOn(imagesData.value, ',')[i], JavaScript)
    ensures imagesData.None? || imagesData.value == "" ==> r == [GalleryImage(placeholder, "No image available")]
  {
    if imagesData.Some? && imagesData.value != "" then
      var urls := SplitOn(imagesData.value, ',');
      seq(|urls|, i requires 0 <= i < |urls| => GalleryImage(Strip(urls[i], JavaScript), "Listing image"))
    else [GalleryImage(placeholder, "No image available")]
  }

  /** The prev button: one back unless already at the first image. */
  function PrevIndex(index: nat): (r: nat)
    ensures index > 0 ==> r == index - 1
    ensures index == 0 ==> r == 0
  {
    if index > 0 then index - 1 else index
  }

  /** The next button: one on unless already at the last image. */
  function NextIndex(index: nat, count: nat): (r: nat)
    ensures index < count ==> r < count
    ensures index + 1 < count ==> r == index + 1
    ensures index + 1 >= count ==> r == index
  {
    if index + 1 < count then index + 1 else index
  }

  /** Next then prev comes back, except from the last image. */
  lemma {:induction false} NextThenPrev(index: nat, count: nat)
    requires index + 1 < count
    ensures PrevIndex(NextIndex(index, count)) == index
  {
  }

  /** From the first image, count - 1 presses of next reach the last one and further presses stay there. */
  lemma {:induction false} NextReachesLast(count: nat, presses: nat)
    requires count >= 1
    ensures Presses(0, count, presses) == if presses < count then presses else count - 1
  {
    if presses > 0 {
      NextReachesLast(count, presses - 1);
    }
  }

  /** The index after pressing next the given number of times. */
  function Presses(index: nat, count: nat, presses: nat): nat
  {
    if presses == 0 then index else NextIndex(Presses(index, count, presses - 1), count)
  }

  class Gallery {
    var images: seq<GalleryImage>
    var index: nat

    ghost predicate Valid()
      reads this
    {
      |images| >= 1 && index < |images|
    }

    /** openImageGallery: the card's images (or the placeholder), starting at the first. */
    constructor Open(imagesData: Option<string>, placeholder: string)
      ensures Valid()
      ensures images == GalleryImages(imagesData, placeholder) && index == 0
    {
      images := GalleryImages(imagesData, placeholder);
      index := 0;
    }

    method Prev()
      requires Valid()
      modifies this
      ensures Valid() && images == old(images)
      ensures index == PrevIndex(old(index))
    {
      if index > 0 {
        index := index - 1;
      }
    }

    method Next()
      requires Valid()
      modifies this
      ensures Valid() && images == old(images)
      ensures index == NextIndex(old(index), |images|)
    {
      if index < |images| - 1 {
        index := index + 1;
      }
    }

    /** A thumbnail click shows that thumbnail's image. */
    method Select(thumbnail: nat)
      requires Valid() && thumbnail < |images|
      modifies this
      ensures Valid() && images == old(images) && index == thumbnail
    {
      index := thumbnail;
    }
  }
}
