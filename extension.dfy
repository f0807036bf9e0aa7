/**
 * The extension object the desktop shell drives through `enable` and
 * `disable`: it holds the settings store while enabled, a single slot for
 * the stylesheet it has loaded into the shell's theme, and the list of
 * settings-change subscriptions it has made; its GTK handlers install or
 * restore the GTK overrides.
 *
 * Beside the extension's own fields the class carries the state the
 * extension acts on: the filesystem (`files`, `dirs`), the stylesheets the
 * theme has loaded on the extension's behalf (`loaded`), and the settings
 * store's table of signal handlers with the id its next one gets.
 */
module StraightCorners {

  import opened Wrappers
  import opened Styles
  import opened GtkFiles

  const Gtk4Key: string := "gtk4-apps-enabled"
  const Gtk3Key: string := "gtk3-apps-enabled"

  /** The name of the file the composed stylesheet is written to, in the
      extension's directory. */
  const DynamicStyleName: string := "dynamic-style.css"

  /** The settings-change signals the extension subscribes to for the
      category table `cats`, in the order it subscribes: one per category,
      then the GTK4 and GTK3 toggles. */
  function SignalDetails(cats: seq<Category>): (r: seq<string>)
    ensures |r| == |cats| + 2
    ensures forall i :: 0 <= i < |cats| ==> r[i] == "changed::" + cats[i].key
    ensures r[|cats|] == "changed::" + Gtk4Key && r[|cats| + 1] == "changed::" + Gtk3Key
  {
    seq(|cats|, i requires 0 <= i < |cats| => "changed::" + cats[i].key)
      + ["changed::" + Gtk4Key, "changed::" + Gtk3Key]
  }

  /** With the extension's category table there are sixteen subscriptions,
      one per setting and no setting twice. */
  lemma SignalDetailsAreDistinct()
    ensures |SignalDetails(Categories)| == 16
    ensures Distinct(SignalDetails(Categories))
  {
    var r := SignalDetails(Categories);
    CategoryTableIsInjective();
    var keys := seq(|Categories|, i requires 0 <= i < |Categories| => Categories[i].key);
    forall i, j | 0 <= i < j < |r|
      ensures r[i] != r[j]
    {
      if j < |Categories| {
        assert keys[i] != keys[j];
        assert r[i][9..] == keys[i] && r[j][9..] == keys[j];
      } else if i < |Categories| {
        CategoryKeyStart(i);
        assert r[i][9] == keys[i][0] && r[j][9] == 'g';
      } else {
        assert r[i][12] == '4' && r[j][12] == '3';
      }
    }
  }

  /** No category key starts with the letter the GTK toggles' keys start with. */
  lemma CategoryKeyStart(i: nat)
    requires i < |Categories|
    ensures |Categories[i].key| > 0 && Categories[i].key[0] != 'g'
  {
  }

  /** The ids `first`, `first + 1`, ..., `count` of them. */
  function IdRange(first: nat, count: nat): seq<nat>
  {
    seq(count, i => first + i)
  }

  lemma IdRangeMembers(first: nat, count: nat)
    ensures forall id :: id in IdRange(first, count) <==> first <= id < first + count
  {
    forall id | first <= id < first + count
      ensures id in IdRange(first, count)
    {
      assert IdRange(first, count)[id - first] == id;
    }
  }

  /** Handlers with the consecutive ids `first`, `first + 1`, ... for `details`. */
  function Subscriptions(first: nat, details: seq<string>): map<nat, string>
  {
    if details == [] then map[]
    else Subscriptions(first, details[..|details| - 1])[first + |details| - 1 := details[|details| - 1]]
  }

  lemma {:induction false} SubscriptionsKeys(first: nat, details: seq<string>)
    ensures forall id :: id in Subscriptions(first, details) <==> first <= id < first + |details|
  {
    if details != [] {
      SubscriptionsKeys(first, details[..|details| - 1]);
    }
  }

  lemma SubscriptionsExtend(first: nat, details: seq<string>, i: nat)
    requires i < |details|
    ensures Subscriptions(first, details[..i + 1]) == Subscriptions(first, details[..i])[first + i := details[i]]
  {
    assert details[..i + 1][..i] == details[..i];
  }

  /** One more subscription extends both the handler table and the id list by one. */
  lemma SubscribedOneMore(handlers: map<nat, string>, held: seq<nat>, first: nat, details: seq<string>, i: nat)
    requires i < |details|
    ensures (handlers + Subscriptions(first, details[..i]))[first + i := details[i]]
         == handlers + Subscriptions(first, details[..i + 1])
    ensures held + IdRange(first, i) + [first + i] == held + IdRange(first, i + 1)
  {
    SubscriptionsExtend(first, details, i);
    assert IdRange(first, i) + [first + i] == IdRange(first, i + 1);
  }

  /** Every handler id is below the next one the store hands out, and every
      held id names a handler. */
  ghost predicate HandlersAccounted(handlers: map<nat, string>, next: nat, held: seq<nat>)
  {
    && (forall id :: id in handlers ==> id < next)
    && (forall i :: 0 <= i < |held| ==> held[i] in handlers)
  }

  /** Subscribing under fresh ids and holding them keeps the table accounted for. */
  lemma SubscribedIdsStayValid(handlers: map<nat, string>, first: nat, details: seq<string>, held: seq<nat>)
    requires HandlersAccounted(handlers, first, held)
    ensures HandlersAccounted(handlers + Subscriptions(first, details), first + |details|,
                              held + IdRange(first, |details|))
  {
    SubscriptionsKeys(first, details);
  }

  /** Dropping every held subscription leaves the table accounted for. */
  lemma UnsubscribedStaysAccounted(handlers: map<nat, string>, next: nat, held: seq<nat>)
    requires HandlersAccounted(handlers, next, held)
    ensures HandlersAccounted(handlers - (set id | id in held), next, [])
  {
  }

  /** Unsubscribing the ids a subscription handed out restores the handler
      table it started from, provided those ids were fresh. */
  lemma UnsubscribeUndoesSubscribe(handlers: map<nat, string>, first: nat, details: seq<string>)
    requires forall id :: id in handlers ==> id < first
    ensures handlers + Subscriptions(first, details) - (set id | id in IdRange(first, |details|)) == handlers
  {
    IdRangeMembers(first, |details|);
    SubscriptionsKeys(first, details);
  }

  /** What `_syncGtkStyles` does to the filesystem: install each GTK
      version's override whose toggle is on, GTK4 first. */
  function Synced(fs: Fs, settings: map<string, bool>, gtk4: Target, gtk3: Target): Fs
  {
    var afterGtk4 := if IsOn(settings, Gtk4Key) then ApplyAsWritten(fs, gtk4) else fs;
    if IsOn(settings, Gtk3Key) then ApplyAsWritten(afterGtk4, gtk3) else afterGtk4
  }

  class StraightCornersExtension {

    /** The user's home directory. */
    const home: Path
    /** The extension's own directory. */
    const path: Path
    /** The CSS fragment of every style name. */
    const cssStyles: map<string, string>
    /** The category table. */
    const categories: seq<Category>

    /** The settings store while enabled. */
    var settings: Option<map<string, bool>>
    /** The stylesheet file currently loaded into the theme, if any. */
    var styleProvider: Option<Path>
    /** The ids of the settings-change handlers the extension holds. */
    var settingsConnections: seq<nat>

    var files: map<Path, string>
    var dirs: set<Path>
    var loaded: multiset<Path>
    var signalHandlers: map<nat, string>
    var nextHandlerId: nat

    function DynamicStylePath(): Path
    {
      path + "/" + DynamicStyleName
    }

    function GtkTarget(v: GtkVersion): Target
    {
      TargetFor(home, path, v)
    }

    function Disk(): Fs
      reads this
    {
      Fs(files, dirs)
    }

    /** The theme holds exactly the stylesheet in the slot, the slot holds
        the generated file, and every handler id is one the store handed out. */
    ghost predicate Valid()
      reads this
    {
      && loaded == (if styleProvider.Some? then multiset{styleProvider.value} else multiset{})
      && (styleProvider.Some? ==> styleProvider.value == DynamicStylePath())
      && HandlersAccounted(signalHandlers, nextHandlerId, settingsConnections)
      && (settingsConnections != [] ==> settings.Some?)
    }

    /** The state between `disable` and the next `enable`. */
    ghost predicate Disabled()
      reads this
    {
      settings.None? && styleProvider.None? && settingsConnections == []
    }

    constructor (home: Path, path: Path, cssStyles: map<string, string>, files: map<Path, string>, dirs: set<Path>)
      ensures this.home == home && this.path == path && this.cssStyles == cssStyles
      ensures categories == Categories
      ensures this.files == files && this.dirs == dirs
      ensures loaded == multiset{} && signalHandlers == map[]
      ensures Valid() && Disabled()
    {
      this.home, this.path, this.cssStyles := home, path, cssStyles;
      categories := Categories;
      this.files, this.dirs := files, dirs;
      settings, styleProvider, settingsConnections := None, None, [];
      loaded, signalHandlers, nextHandlerId := multiset{}, map[], 1;
    }

    /** `enable`: take the settings, load the stylesheet, install the GTK
        overrides whose toggles are on, subscribe to settings changes. */
    method Enable(store: map<string, bool>)
      modifies this
      ensures settings == Some(store)
      ensures styleProvider == Some(DynamicStylePath())
      ensures loaded == old(loaded) + multiset{DynamicStylePath()}
      ensures Disk() == Synced(Fs(old(files)[DynamicStylePath() := Composed(categories, store, cssStyles)], old(dirs)),
                               store, GtkTarget(Gtk4), GtkTarget(Gtk3))
      ensures nextHandlerId == old(nextHandlerId) + |categories| + 2
      ensures settingsConnections == old(settingsConnections) + IdRange(old(nextHandlerId), |categories| + 2)
      ensures signalHandlers == old(signalHandlers) + Subscriptions(old(nextHandlerId), SignalDetails(categories))
      ensures old(Valid() && Disabled()) ==> Valid()
    {
      ghost var handlers, first, held := signalHandlers, nextHandlerId, settingsConnections;
      settings := Some(store);
      LoadStyles();
      assert signalHandlers == handlers && nextHandlerId == first && settingsConnections == held;
      ghost var theme := loaded;
      SyncGtkStyles();
      assert loaded == theme && styleProvider == Some(DynamicStylePath());
      assert signalHandlers == handlers && nextHandlerId == first && settingsConnections == held;
      ghost var disk := Disk();
      ConnectSettings();
      assert Disk() == disk && loaded == theme && styleProvider == Some(DynamicStylePath());
      if old(Valid()) {
        SubscribedIdsStayValid(handlers, first, SignalDetails(categories), held);
      }
    }

    /** `disable`: unsubscribe, unload the stylesheet, drop the settings.
        The GTK overrides stay installed. */
    method Disable()
      requires settingsConnections != [] ==> settings.Some?
      modifies this
      ensures Disabled()
      ensures signalHandlers == old(signalHandlers) - (set id | id in old(settingsConnections))
      ensures nextHandlerId == old(nextHandlerId)
      ensures old(styleProvider).Some? ==>
        loaded == old(loaded) - multiset{old(styleProvider).value} && files == old(files) - {old(styleProvider).value}
      ensures old(styleProvider).None? ==> loaded == old(loaded) && files == old(files)
      ensures dirs == old(dirs)
      ensures old(Valid()) ==> Valid() && loaded == multiset{}
    {
      ghost var wasValid := Valid();
      ghost var handlers, held := signalHandlers, settingsConnections;
      DisconnectSettings();
      assert files == old(files) && loaded == old(loaded) && styleProvider == old(styleProvider);
      UnloadStyles();
      settings := None;
      if wasValid {
        UnsubscribedStaysAccounted(handlers, nextHandlerId, held);
        assert loaded == multiset{};
      }
    }

    /** The settings store's `connect`: a handler for `detail` under a fresh id. */
    method SettingsConnect(detail: string) returns (id: nat)
      modifies this`signalHandlers, this`nextHandlerId
      ensures id == old(nextHandlerId) && nextHandlerId == id + 1
      ensures signalHandlers == old(signalHandlers)[id := detail]
    {
      id := nextHandlerId;
      signalHandlers := signalHandlers[id := detail];
      nextHandlerId := nextHandlerId + 1;
    }

    /** `_connectSettings`: one subscription per category, then the two GTK
        toggles; every id is appended to the connection list. */
    method ConnectSettings()
      requires settings.Some?
      modifies this`settingsConnections, this`signalHandlers, this`nextHandlerId
      ensures nextHandlerId == old(nextHandlerId) + |categories| + 2
      ensures settingsConnections == old(settingsConnections) + IdRange(old(nextHandlerId), |categories| + 2)
      ensures signalHandlers == old(signalHandlers) + Subscriptions(old(nextHandlerId), SignalDetails(categories))
    {
      ghost var first, details := nextHandlerId, SignalDetails(categories);
      ghost var n := |categories|;
      for i := 0 to |categories|
        invariant nextHandlerId == first + i
        invariant settingsConnections == old(settingsConnections) + IdRange(first, i)
        invariant signalHandlers == old(signalHandlers) + Subscriptions(first, details[..i])
      {
        var id := SettingsConnect("changed::" + categories[i].key);
        settingsConnections := settingsConnections + [id];
        SubscribedOneMore(old(signalHandlers), old(settingsConnections), first, details, i);
      }
      var gtk4Id := SettingsConnect("changed::" + Gtk4Key);
      settingsConnections := settingsConnections + [gtk4Id];
      SubscribedOneMore(old(signalHandlers), old(settingsConnections), first, details, n);
      assert settingsConnections == old(settingsConnections) + IdRange(first, n + 1);
      assert signalHandlers == old(signalHandlers) + Subscriptions(first, details[..n + 1]);
      var gtk3Id := SettingsConnect("changed::" + Gtk3Key);
      settingsConnections := settingsConnections + [gtk3Id];
      SubscribedOneMore(old(signalHandlers), old(settingsConnections), first, details, n + 1);
      assert details[..n + 2] == details;
    }

    /** `_disconnectSettings`: drop every held subscription and empty the list. */
    method DisconnectSettings()
      requires settingsConnections != [] ==> settings.Some?
      modifies this`settingsConnections, this`signalHandlers
      ensures settingsConnections == []
      ensures signalHandlers == old(signalHandlers) - (set id | id in old(settingsConnections))
      ensures old(Valid()) ==> Valid()
    {
      for i := 0 to |settingsConnections|
        invariant settingsConnections == old(settingsConnections)
        invariant signalHandlers == old(signalHandlers) - (set id | id in settingsConnections[..i])
      {
        signalHandlers := signalHandlers - {settingsConnections[i]};
        assert settingsConnections[..i + 1] == settingsConnections[..i] + [settingsConnections[i]];
      }
      assert settingsConnections[..|settingsConnections|] == settingsConnections;
      settingsConnections := [];
    }

    /** `_syncGtkStyles`. */
    method SyncGtkStyles()
      requires settings.Some?
      modifies this`files, this`dirs
      ensures Disk() == Synced(old(Disk()), settings.value, GtkTarget(Gtk4), GtkTarget(Gtk3))
    {
      if IsOn(settings.value, Gtk4Key) {
        ApplyGtkStyle(Gtk4);
      }
      if IsOn(settings.value, Gtk3Key) {
        ApplyGtkStyle(Gtk3);
      }
    }

    /** `_handleGtk4Toggle`: install the GTK4 override when its toggle is on,
        restore the original otherwise. */
    method HandleGtk4Toggle()
      requires settings.Some?
      modifies this`files, this`dirs
      ensures Disk() == if IsOn(settings.value, Gtk4Key) then ApplyAsWritten(old(Disk()), GtkTarget(Gtk4))
                        else Restore(old(Disk()), GtkTarget(Gtk4))
    {
      if IsOn(settings.value, Gtk4Key) {
        ApplyGtkStyle(Gtk4);
      } else {
        RestoreGtkStyle(Gtk4);
      }
    }

    /** `_handleGtk3Toggle`, the same for GTK3. */
    method HandleGtk3Toggle()
      requires settings.Some?
      modifies this`files, this`dirs
      ensures Disk() == if IsOn(settings.value, Gtk3Key) then ApplyAsWritten(old(Disk()), GtkTarget(Gtk3))
                        else Restore(old(Disk()), GtkTarget(Gtk3))
    {
      if IsOn(settings.value, Gtk3Key) {
        ApplyGtkStyle(Gtk3);
      } else {
        RestoreGtkStyle(Gtk3);
      }
    }

    /** `_applyGtkStyle`, step by step: create the directory, back up
        gtk.css when it exists and no backup does, copy the override over it. */
    method ApplyGtkStyle(v: GtkVersion)
      modifies this`files, this`dirs
      ensures Disk() == ApplyAsWritten(old(Disk()), GtkTarget(v))
    {
      var t := GtkTarget(v);
      if t.dir !in dirs {
        dirs := dirs + {t.dir};
      }
      if BacksUpAsWritten(files, t) {
        files := files[t.backup := files[t.css]];
      }
      if t.source in files {
        files := files[t.css := files[t.source]];
      }
    }

    /** `_restoreGtkStyle`, step by step: copy the backup back and delete it,
        or delete a marked gtk.css when there is no backup. */
    method RestoreGtkStyle(v: GtkVersion)
      modifies this`files
      ensures Disk() == Restore(old(Disk()), GtkTarget(v))
    {
      var t := GtkTarget(v);
      if t.backup in files {
        files := files[t.css := files[t.backup]];
        files := files - {t.backup};
      } else if t.css in files {
        var text := files[t.css];
        if Contains(text, Marker) {
          files := files - {t.css};
        }
      }
    }

    /** `_buildCss`: the banner, then the section of every enabled category
        in table order. */
    method BuildCss() returns (css: string)
      requires settings.Some?
      ensures css == Composed(categories, settings.value, cssStyles)
    {
      var store := settings.value;
      css := Banner;
      for i := 0 to |categories|
        invariant css == Banner + Sections(categories[..i], store, cssStyles)
      {
        var category := categories[i];
        ghost var body := Sections(categories[..i], store, cssStyles);
        if IsOn(store, category.key) {
          css := css + "/* " + category.style + " */\n";
          css := css + FragmentText(cssStyles, category.style);
          css := css + "\n\n";
          AppendSection(Banner, body, category, cssStyles);
        }
        assert categories[..i + 1][..i] == categories[..i];
      }
      assert categories[..|categories|] == categories;
    }

    /** `_loadStyles`: write the composed stylesheet to the generated file,
        load that file into the theme and keep it in the slot. The blank
        check never stops it, since the stylesheet always holds the banner. */
    method LoadStyles()
      requires settings.Some?
      modifies this`files, this`loaded, this`styleProvider
      ensures files == old(files)[DynamicStylePath() := Composed(categories, settings.value, cssStyles)]
      ensures loaded == old(loaded) + multiset{DynamicStylePath()}
      ensures styleProvider == Some(DynamicStylePath())
    {
      var css := BuildCss();
      if IsBlank(css) {
        return;
      }
      var cssFile := DynamicStylePath();
      files := files[cssFile := css];
      loaded := loaded + multiset{cssFile};
      styleProvider := Some(cssFile);
    }

    /** `_unloadStyles`: unload and delete the file in the slot, if any, and
        empty the slot. */
    method UnloadStyles()
      modifies this`files, this`loaded, this`styleProvider
      ensures styleProvider == None
      ensures old(styleProvider).Some? ==>
        loaded == old(loaded) - multiset{old(styleProvider).value} && files == old(files) - {old(styleProvider).value}
      ensures old(styleProvider).None? ==> loaded == old(loaded) && files == old(files)
    {
      if styleProvider.Some? {
        var provider := styleProvider.value;
        loaded := loaded - multiset{provider};
        files := files - {provider};
        styleProvider := None;
      }
    }

    /** `_reloadStyles`: unload, then load; the theme ends up holding one
        copy of the generated stylesheet, never two. */
    method ReloadStyles()
      requires settings.Some?
      modifies this`files, this`loaded, this`styleProvider
      ensures styleProvider == Some(DynamicStylePath())
      ensures old(Valid()) ==> Valid() && loaded == multiset{DynamicStylePath()}
      ensures old(Valid()) ==> files == old(files)[DynamicStylePath() := Composed(categories, settings.value, cssStyles)]
    {
      UnloadStyles();
      LoadStyles();
    }
  }
}
