/** The preset table of social-media canvas sizes (src/types.ts). */
module Types {
  import opened Text

  /** One preset: a display name, a canvas size in pixels and an icon key. */
  datatype SocialMediaDimensions = SocialMediaDimensions(name: string, width: int, height: int, icon: string)

  const SocialMediaSizes: seq<SocialMediaDimensions> := [
    SocialMediaDimensions("Instagram Post", 1080, 1080, "instagram"),
    SocialMediaDimensions("Instagram Story", 1080, 1920, "instagram"),
    SocialMediaDimensions("Twitter Post", 1200, 675, "twitter"),
    SocialMediaDimensions("Facebook Post", 1200, 630, "facebook"),
    SocialMediaDimensions("LinkedIn Post", 1200, 627, "linkedin"),
    SocialMediaDimensions("YouTube Thumbnail", 1280, 720, "youtube")
  ]

  /** A preset the fit computation can use: a canvas with positive sides. */
  predicate PositiveSize(p: SocialMediaDimensions) {
    p.width > 0 && p.height > 0
  }

  /** A table in which presets can be told apart by name. */
  predicate DistinctNames(ps: seq<SocialMediaDimensions>) {
    forall i, j :: 0 <= i < j < |ps| ==> ps[i].name != ps[j].name
  }

  /** The table has six presets, each of positive size, and no two share a
      name. */
  lemma PresetTable()
    ensures |SocialMediaSizes| == 6
    ensures forall p :: p in SocialMediaSizes ==> PositiveSize(p)
    ensures DistinctNames(SocialMediaSizes)
  {
  }

  /** Every preset name is two words joined by exactly one space. */
  lemma PresetNamesHaveOneSpace()
    ensures forall i :: 0 <= i < |SocialMediaSizes| ==> Count(SocialMediaSizes[i].name, ' ') == 1
  {
    forall i | 0 <= i < |SocialMediaSizes| ensures Count(SocialMediaSizes[i].name, ' ') == 1 {
      PresetNameOneSpace(i);
    }
  }

  lemma PresetNameOneSpace(i: int)
    requires 0 <= i < |SocialMediaSizes|
    ensures Count(SocialMediaSizes[i].name, ' ') == 1
  {
    if i < 3 {
      LeadingPresetsOneSpace(i);
    } else {
      TrailingPresetsOneSpace(i);
    }
  }

  lemma LeadingPresetsOneSpace(i: int)
    requires 0 <= i < 3
    ensures Count(SocialMediaSizes[i].name, ' ') == 1
  {
    var name := SocialMediaSizes[i].name;
    if i == 0 { WordsOneSpace(name, "Instagram", "Post"); }
    else if i == 1 { WordsOneSpace(name, "Instagram", "Story"); }
    else { WordsOneSpace(name, "Twitter", "Post"); }
  }

  lemma TrailingPresetsOneSpace(i: int)
    requires 3 <= i < 6
    ensures Count(SocialMediaSizes[i].name, ' ') == 1
  {
    var name := SocialMediaSizes[i].name;
    if i == 3 { WordsOneSpace(name, "Facebook", "Post"); }
    else if i == 4 { WordsOneSpace(name, "LinkedIn", "Post"); }
    else { WordsOneSpace(name, "YouTube", "Thumbnail"); }
  }

  /** A name made of two space-free words and one space holds one space. */
  lemma WordsOneSpace(name: string, a: string, b: string)
    requires name == a + " " + b && ' ' !in a && ' ' !in b
    ensures Count(name, ' ') == 1
  {
    OneSpace(a, b);
  }

  /** The default selection: the first preset, a 1:1 Instagram post. */
  lemma DefaultPreset()
    ensures SocialMediaSizes[0].name == "Instagram Post"
    ensures SocialMediaSizes[0].width == SocialMediaSizes[0].height == 1080
  {
  }
}
