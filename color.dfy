/**
  The tag colours and icons of src/ui/color.ts: one colour table and one emoji table per
  language, the colour of a tag (getColorForType) and the icon string of a list of tags
  (getIconForType).
*/
module Color {

  /** The palette (the CommentColors enumeration). */
  datatype Palette = Red | Orange | Yellow | Green | Blue | Purple | Brown | Black | White | Gray

  /** The hex code each member of the palette stands for. */
  function Hex(c: Palette): string {
    match c
    case Red => "#FF6B6B"
    case Orange => "#FFB347"
    case Yellow => "#FFD166"
    case Green => "#88D8B0"
    case Blue => "#7FB3D5"
    case Purple => "#B8A1D9"
    case Brown => "#C4A484"
    case Black => "#5D5D5D"
    case White => "#F5F5F5"
    case Gray => "#C0C0C0"
  }

  // The circles of the emoji tables, one code point each.
  const RedCircle := "\U{1F534}"
  const OrangeCircle := "\U{1F7E0}"
  const YellowCircle := "\U{1F7E1}"
  const GreenCircle := "\U{1F7E2}"
  const BlueCircle := "\U{1F535}"
  const PurpleCircle := "\U{1F7E3}"
  const BrownCircle := "\U{1F7E4}"
  const BlackCircle := "\U{26AB}"
  const WhiteCircle := "\U{26AA}"

  const JavaColor: map<string, Palette> := map[
    "summary" := Blue, "ownership" := Green, "expand" := Yellow, "usage" := Brown,
    "pointer" := Purple, "deprecation" := Red, "rational" := Orange]

  const PythonColor: map<string, Palette> := map[
    "usage" := Blue, "parameters" := Purple, "development notes" := White, "expand" := Yellow,
    "summary" := Blue]

  const PharoColor: map<string, Palette> := map[
    "key implementation points" := Orange, "example" := Green, "responsibilities" := Blue,
    "class references" := Purple, "intent" := Blue, "key messages" := Red, "collaborators" := White]

  const JavaEmoji: map<string, string> := map[
    "summary" := BlueCircle, "ownership" := GreenCircle, "expand" := YellowCircle, "usage" := BrownCircle,
    "pointer" := PurpleCircle, "deprecation" := RedCircle, "rational" := OrangeCircle]

  const PythonEmoji: map<string, string> := map[
    "usage" := BlueCircle, "parameters" := PurpleCircle, "development notes" := WhiteCircle,
    "expand" := YellowCircle, "summary" := BlueCircle]

  const PharoEmoji: map<string, string> := map[
    "key implementation points" := OrangeCircle, "example" := GreenCircle, "responsibilities" := BlueCircle,
    "class references" := PurpleCircle, "intent" := BlueCircle, "key messages" := RedCircle,
    "collaborators" := WhiteCircle]

  /** `colorMap[language]`: the colour table of a language, none for another one. */
  function ColorTable(language: string): map<string, Palette> {
    if language == "java" then JavaColor
    else if language == "python" then PythonColor
    else if language == "pharo" then PharoColor
    else map[]
  }

  /** `iconMap[language]`: the emoji table of a language, none for another one. */
  function EmojiTable(language: string): map<string, string> {
    if language == "java" then JavaEmoji
    else if language == "python" then PythonEmoji
    else if language == "pharo" then PharoEmoji
    else map[]
  }

  /** getColorForType: the hex code of the table's colour for the tag, gray when the
      language or the tag is unknown. */
  function GetColorForType(language: string, tag: string): (r: string)
    ensures tag in ColorTable(language) ==> r == Hex(ColorTable(language)[tag])
    ensures tag !in ColorTable(language) ==> r == "#C0C0C0"
  {
    Hex(if tag in ColorTable(language) then ColorTable(language)[tag] else Gray)
  }

  /** The icon of one tag: the table's emoji, a white circle when unknown. */
  function IconOf(language: string, tag: string): (r: string)
    ensures |r| == 1
  {
    if tag in EmojiTable(language) then EmojiTable(language)[tag] else WhiteCircle
  }

  /** The icon string of a list of tags: the icons of the tags, in order. */
  function Icons(language: string, tags: seq<string>): (r: string)
    ensures |r| == |tags|
    decreases |tags|
  {
    if tags == [] then "" else Icons(language, tags[..|tags| - 1]) + IconOf(language, tags[|tags| - 1])
  }

  /** getIconForType: appends the icon of each tag in turn. */
  method GetIconForType(language: string, commentType: seq<string>) returns (icon: string)
    ensures icon == Icons(language, commentType)
  {
    icon := "";
    for i := 0 to |commentType|
      invariant icon == Icons(language, commentType[..i])
    {
      assert commentType[..i + 1][..i] == commentType[..i];
      icon := icon + IconOf(language, commentType[i]);
    }
    assert commentType[..|commentType|] == commentType;
  }

  /** The icon string has one character per tag, the `k`-th being the icon of the `k`-th
      tag; an empty list gives the empty string. */
  lemma IconsPerTag(language: string, tags: seq<string>)
    ensures |Icons(language, tags)| == |tags|
    ensures forall k :: 0 <= k < |tags| ==> Icons(language, tags)[k] == IconOf(language, tags[k])[0]
  {
    IconsLength(language, tags);
    forall k | 0 <= k < |tags| ensures Icons(language, tags)[k] == IconOf(language, tags[k])[0] {
      IconAt(language, tags, k);
    }
  }

  lemma {:induction false} IconsLength(language: string, tags: seq<string>)
    ensures |Icons(language, tags)| == |tags|
    decreases |tags|
  {
    if tags != [] {
      IconsLength(language, tags[..|tags| - 1]);
    }
  }

  lemma {:induction false} IconAt(language: string, tags: seq<string>, k: nat)
    requires k < |tags|
    ensures |Icons(language, tags)| == |tags|
    ensures Icons(language, tags)[k] == IconOf(language, tags[k])[0]
    decreases |tags|
  {
    var n := |tags| - 1;
    var init := tags[..n];
    IconsLength(language, init);
    IconsLength(language, tags);
    if k < n {
      IconAt(language, init, k);
      assert init[k] == tags[k];
    }
  }

  /** For every language the two tables know the same tags. */
  lemma TablesShareTags(language: string)
    ensures ColorTable(language).Keys == EmojiTable(language).Keys
  {
    if language == "java" {
      JavaTablesAgree();
    } else if language == "python" {
      PythonTablesAgree();
    } else if language == "pharo" {
      PharoTablesAgree();
    }
  }

  /** The circle that the palette's comments pair with each colour. */
  function CircleOf(c: Palette): string {
    match c
    case Red => RedCircle
    case Orange => OrangeCircle
    case Yellow => YellowCircle
    case Green => GreenCircle
    case Blue => BlueCircle
    case Purple => PurpleCircle
    case Brown => BrownCircle
    case Black => BlackCircle
    case White => WhiteCircle
    case Gray => WhiteCircle
  }

  lemma JavaTablesAgree()
    ensures JavaColor.Keys == JavaEmoji.Keys
    ensures forall tag :: tag in JavaEmoji ==> JavaEmoji[tag] == CircleOf(JavaColor[tag])
  {
  }

  lemma PythonTablesAgree()
    ensures PythonColor.Keys == PythonEmoji.Keys
    ensures forall tag :: tag in PythonEmoji ==> PythonEmoji[tag] == CircleOf(PythonColor[tag])
  {
  }

  lemma PharoTablesAgree()
    ensures PharoColor.Keys == PharoEmoji.Keys
    ensures forall tag :: tag in PharoEmoji ==> PharoEmoji[tag] == CircleOf(PharoColor[tag])
  {
  }

  /** The icon of a known tag is the circle of its colour, and an unknown tag is gray with
      a white circle: highlights and icons agree. */
  lemma IconMatchesColor(language: string, tag: string)
    ensures tag in EmojiTable(language) ==> IconOf(language, tag) == CircleOf(ColorTable(language)[tag])
    ensures tag !in EmojiTable(language) ==> GetColorForType(language, tag) == "#C0C0C0" && IconOf(language, tag) == WhiteCircle
  {
    TablesShareTags(language);
    if language == "java" {
      JavaTablesAgree();
    } else if language == "python" {
      PythonTablesAgree();
    } else if language == "pharo" {
      PharoTablesAgree();
    }
  }
}
