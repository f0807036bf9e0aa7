/**
 * Composition of the extension's generated stylesheet: a fixed banner, then,
 * for every category of the category table whose setting is on and in the
 * table's order, a comment header naming the category, its CSS fragment and
 * a blank line.
 */
module Styles {

  /** One row of the category table: the boolean settings key that toggles
      the category and the name of its CSS fragment. */
  datatype Category = Category(key: string, style: string)

  /** The category table, in the order the stylesheet lists the fragments. */
  const Categories: seq<Category> := [
    Category("windows-enabled", "Windows"),
    Category("panel-enabled", "Panel"),
    Category("buttons-enabled", "Buttons"),
    Category("dialogs-enabled", "Dialogs"),
    Category("overview-enabled", "Overview"),
    Category("notifications-enabled", "Notifications"),
    Category("menus-enabled", "Menus"),
    Category("osd-enabled", "Osd"),
    Category("dash-enabled", "Dash"),
    Category("calendar-enabled", "Calendar"),
    Category("lock-screen-enabled", "LockScreen"),
    Category("tooltips-enabled", "Tooltips"),
    Category("entries-enabled", "Entries"),
    Category("switches-enabled", "Switches")
  ]

  /** The comment every generated stylesheet starts with. */
  const Banner: string := "/* Straight Corners Extension - Auto-generated CSS */\n\n"

  /** The boolean setting `key`; a key the store does not hold reads as off. */
  predicate IsOn(settings: map<string, bool>, key: string)
  {
    key in settings && settings[key]
  }

  /** The fragment text of a style name. Concatenating a missing entry of
      the fragment table yields the text "undefined" in JavaScript. */
  function FragmentText(styles: map<string, string>, name: string): string
  {
    if name in styles then styles[name] else "undefined"
  }

  /** The block an enabled category adds to the stylesheet. */
  function Section(c: Category, styles: map<string, string>): string
  {
    "/* " + c.style + " */\n" + FragmentText(styles, c.style) + "\n\n"
  }

  /** What one category adds: its section when its setting is on, nothing otherwise. */
  function Piece(c: Category, settings: map<string, bool>, styles: map<string, string>): string
  {
    if IsOn(settings, c.key) then Section(c, styles) else ""
  }

  /** The text the categories `cats` add, accumulated left to right the way
      the generating loop appends it. */
  function Sections(cats: seq<Category>, settings: map<string, bool>, styles: map<string, string>): string
  {
    if cats == [] then ""
    else Sections(cats[..|cats| - 1], settings, styles) + Piece(cats[|cats| - 1], settings, styles)
  }

  /** Appending a section's three parts one after another to `prefix + body`
      appends the section to `body`. */
  lemma AppendSection(prefix: string, body: string, c: Category, styles: map<string, string>)
    ensures prefix + body + "/* " + c.style + " */\n" + FragmentText(styles, c.style) + "\n\n"
         == prefix + (body + Section(c, styles))
  {
    var header := "/* " + c.style + " */\n";
    var text := FragmentText(styles, c.style);
    assert prefix + body + "/* " + c.style + " */\n" == prefix + body + header;
    assert Section(c, styles) == header + text + "\n\n";
  }

  /** The generated stylesheet for a category table, a settings store and a
      fragment table. */
  function Composed(cats: seq<Category>, settings: map<string, bool>, styles: map<string, string>): (css: string)
    ensures |Banner| <= |css| && css[..|Banner|] == Banner
    ensures !IsBlank(css)
  {
    var css := Banner + Sections(cats, settings, styles);
    // position 52 is the '/' that closes the banner's comment
    assert css[52] == Banner[52] == '/';
    css
  }

  /** The characters JavaScript's String.prototype.trim removes: white space
      and line terminators. */
  predicate IsJsWhitespace(ch: char)
  {
    || ch == ' ' || ch == '\t' || ch == '\n' || ch == '\r' || ch == '\U{0B}' || ch == '\U{0C}'
    || ch == '\U{A0}' || ch == '\U{1680}' || ('\U{2000}' <= ch <= '\U{200A}')
    || ch == '\U{2028}' || ch == '\U{2029}' || ch == '\U{202F}' || ch == '\U{205F}'
    || ch == '\U{3000}' || ch == '\U{FEFF}'
  }

  /** `!s.trim()`: the text is empty once trimmed. */
  predicate IsBlank(s: string)
  {
    forall i :: 0 <= i < |s| ==> IsJsWhitespace(s[i])
  }

  // ----- An independent reference definition: filter, then concatenate -----

  /** The categories of `cats` whose setting is on, in their order. */
  function Enabled(cats: seq<Category>, settings: map<string, bool>): (r: seq<Category>)
    ensures |r| <= |cats|
    ensures forall c :: c in r <==> c in cats && IsOn(settings, c.key)
  {
    if cats == [] then []
    else (if IsOn(settings, cats[0].key) then [cats[0]] else []) + Enabled(cats[1..], settings)
  }

  /** The sections of `cs`, one after another. */
  function Joined(cs: seq<Category>, styles: map<string, string>): string
  {
    if cs == [] then "" else Section(cs[0], styles) + Joined(cs[1..], styles)
  }

  /** `a` lists some of the elements of `b`, in the order `b` lists them. */
  predicate IsSubsequence<T(==)>(a: seq<T>, b: seq<T>)
  {
    if a == [] then true
    else if b == [] then false
    else (a[0] == b[0] && IsSubsequence(a[1..], b[1..])) || IsSubsequence(a, b[1..])
  }

  /** The elements of `s` are pairwise distinct. */
  predicate Distinct<T(==)>(s: seq<T>)
  {
    forall i, j :: 0 <= i < j < |s| ==> s[i] != s[j]
  }

  lemma {:induction false} EnabledAppend(a: seq<Category>, b: seq<Category>, settings: map<string, bool>)
    ensures Enabled(a + b, settings) == Enabled(a, settings) + Enabled(b, settings)
  {
    if a == [] {
      assert a + b == b;
    } else {
      assert (a + b)[1..] == a[1..] + b;
      EnabledAppend(a[1..], b, settings);
    }
  }

  lemma {:induction false} JoinedAppend(a: seq<Category>, b: seq<Category>, styles: map<string, string>)
    ensures Joined(a + b, styles) == Joined(a, styles) + Joined(b, styles)
  {
    if a == [] {
      assert a + b == b;
    } else {
      assert (a + b)[1..] == a[1..] + b;
      JoinedAppend(a[1..], b, styles);
    }
  }

  /** The left-to-right accumulation equals the filter-then-concatenate definition. */
  lemma {:induction false} SectionsAreJoinedEnabled(cats: seq<Category>, settings: map<string, bool>, styles: map<string, string>)
    ensures Sections(cats, settings, styles) == Joined(Enabled(cats, settings), styles)
  {
    if cats != [] {
      var init, last := cats[..|cats| - 1], cats[|cats| - 1];
      assert cats == init + [last];
      SectionsAreJoinedEnabled(init, settings, styles);
      EnabledAppend(init, [last], settings);
      JoinedAppend(Enabled(init, settings), Enabled([last], settings), styles);
      assert Enabled([last], settings) == (if IsOn(settings, last.key) then [last] else []) + Enabled([], settings);
    }
  }

  /** The stylesheet is the banner followed by the sections of exactly the
      enabled categories, in table order. */
  lemma ComposedIsBannerAndEnabledSections(cats: seq<Category>, settings: map<string, bool>, styles: map<string, string>)
    ensures Composed(cats, settings, styles) == Banner + Joined(Enabled(cats, settings), styles)
  {
    SectionsAreJoinedEnabled(cats, settings, styles);
  }

  /** The enabled categories keep the table's order. */
  lemma {:induction false} EnabledIsSubsequence(cats: seq<Category>, settings: map<string, bool>)
    ensures IsSubsequence(Enabled(cats, settings), cats)
  {
    if cats != [] {
      EnabledIsSubsequence(cats[1..], settings);
      var rest := Enabled(cats[1..], settings);
      if IsOn(settings, cats[0].key) {
        assert Enabled(cats, settings) == [cats[0]] + rest;
        assert ([cats[0]] + rest)[1..] == rest;
      } else {
        assert Enabled(cats, settings) == rest;
        SubsequenceDropHead(rest, cats);
      }
    }
  }

  /** A subsequence of the tail is a subsequence of the whole. */
  lemma SubsequenceDropHead<T>(a: seq<T>, b: seq<T>)
    requires b != [] && IsSubsequence(a, b[1..])
    ensures IsSubsequence(a, b)
  {
  }

  /** Keys and style names in the category table are pairwise distinct, and
      the table has fourteen rows. */
  lemma CategoryTableIsInjective()
    ensures |Categories| == 14
    ensures Distinct(seq(|Categories|, i requires 0 <= i < |Categories| => Categories[i].key))
    ensures Distinct(seq(|Categories|, i requires 0 <= i < |Categories| => Categories[i].style))
  {
  }

  /** With no category switched on, the stylesheet is exactly the banner. */
  lemma NothingEnabledIsBanner(cats: seq<Category>, settings: map<string, bool>, styles: map<string, string>)
    requires forall c :: c in cats ==> !IsOn(settings, c.key)
    ensures Composed(cats, settings, styles) == Banner
  {
    NoneEnabled(cats, settings);
    ComposedIsBannerAndEnabledSections(cats, settings, styles);
  }

  /** Only the category keys matter: settings that agree on them (whatever
      they say about other keys, such as the GTK toggles) give the same text. */
  lemma {:induction false} SectionsDependOnlyOnCategoryKeys(cats: seq<Category>, s1: map<string, bool>, s2: map<string, bool>, styles: map<string, string>)
    requires forall c :: c in cats ==> IsOn(s1, c.key) == IsOn(s2, c.key)
    ensures Sections(cats, s1, styles) == Sections(cats, s2, styles)
  {
    if cats != [] {
      var init := cats[..|cats| - 1];
      assert forall c :: c in init ==> c in cats;
      SectionsDependOnlyOnCategoryKeys(init, s1, s2, styles);
      assert cats[|cats| - 1] in cats;
    }
  }

  lemma ComposedDependsOnlyOnCategoryKeys(cats: seq<Category>, s1: map<string, bool>, s2: map<string, bool>, styles: map<string, string>)
    requires forall c :: c in cats ==> IsOn(s1, c.key) == IsOn(s2, c.key)
    ensures Composed(cats, s1, styles) == Composed(cats, s2, styles)
  {
    SectionsDependOnlyOnCategoryKeys(cats, s1, s2, styles);
  }

  lemma {:induction false} NoneEnabled(cats: seq<Category>, settings: map<string, bool>)
    requires forall c :: c in cats ==> !IsOn(settings, c.key)
    ensures Enabled(cats, settings) == []
  {
    if cats != [] {
      assert cats[0] in cats;
      NoneEnabled(cats[1..], settings);
    }
  }

  /** Windows and Panel on, everything else off: the banner, the Windows
      section, the Panel section, and nothing more. */
  lemma WindowsAndPanelOnly(styles: map<string, string>)
    ensures Composed(Categories, map["windows-enabled" := true, "panel-enabled" := true], styles)
         == Banner + (Section(Category("windows-enabled", "Windows"), styles)
                      + Section(Category("panel-enabled", "Panel"), styles))
  {
    WindowsAndPanelEnabled();
    ComposedOfPair(Categories, map["windows-enabled" := true, "panel-enabled" := true], styles, Categories[..2]);
  }

  lemma ComposedOfPair(cats: seq<Category>, settings: map<string, bool>, styles: map<string, string>, cs: seq<Category>)
    requires |cs| == 2 && Enabled(cats, settings) == cs
    ensures Composed(cats, settings, styles) == Banner + (Section(cs[0], styles) + Section(cs[1], styles))
  {
    ComposedIsBannerAndEnabledSections(cats, settings, styles);
    var tail, s1 := cs[1..], Section(cs[1], styles);
    assert Joined(tail, styles) == s1 + Joined([], styles);
    assert s1 + "" == s1;
    assert Joined(cs, styles) == Section(cs[0], styles) + s1;
  }

  lemma WindowsAndPanelEnabled()
    ensures Enabled(Categories, map["windows-enabled" := true, "panel-enabled" := true]) == Categories[..2]
  {
    var s := map["windows-enabled" := true, "panel-enabled" := true];
    RestOff();
    NoneEnabled(Categories[2..], s);
    FirstTwoOn();
    EnabledPrefixOnly(Categories, 2, s);
  }

  /** When a prefix is wholly enabled and the remainder wholly disabled, the
      enabled categories are that prefix. */
  lemma EnabledPrefixOnly(cats: seq<Category>, k: nat, settings: map<string, bool>)
    requires k <= |cats|
    requires Enabled(cats[..k], settings) == cats[..k]
    requires Enabled(cats[k..], settings) == []
    ensures Enabled(cats, settings) == cats[..k]
  {
    assert cats == cats[..k] + cats[k..];
    EnabledAppend(cats[..k], cats[k..], settings);
  }

  lemma RestOff()
    ensures forall c :: c in Categories[2..] ==> !IsOn(map["windows-enabled" := true, "panel-enabled" := true], c.key)
  {
    OtherKeysDiffer();
  }

  lemma FirstTwoOn()
    ensures Enabled(Categories[..2], map["windows-enabled" := true, "panel-enabled" := true]) == Categories[..2]
  {
    var s := map["windows-enabled" := true, "panel-enabled" := true];
    var first := Categories[..2];
    assert first[1..] == [first[1]];
    assert Enabled([first[1]], s) == [first[1]] + Enabled([], s);
  }

  /** No row after the first two uses the key "windows-enabled" or "panel-enabled". */
  lemma OtherKeysDiffer()
    ensures forall c :: c in Categories[2..] ==> c.key != "windows-enabled" && c.key != "panel-enabled"
  {
    var keys := seq(|Categories|, i requires 0 <= i < |Categories| => Categories[i].key);
    CategoryTableIsInjective();
    forall c | c in Categories[2..]
      ensures c.key != "windows-enabled" && c.key != "panel-enabled"
    {
      var j :| 2 <= j < |Categories| && Categories[j] == c;
      assert keys[j] != keys[0] && keys[j] != keys[1];
    }
  }
}
