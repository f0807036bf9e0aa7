# Straight Corners — a verified model of the extension core

Straight Corners is a GNOME Shell extension that removes rounded corners.
While it is enabled it does two things.

- **Shell stylesheet.** It composes a stylesheet from a fixed table of
  fourteen UI categories. Each category is switched on or off by a boolean
  setting. The extension writes the stylesheet to `dynamic-style.css` in its
  own directory and loads that file into the shell theme. It recomposes and
  reloads the stylesheet whenever one of the category settings changes.
- **GTK overrides.** For GTK 3 and GTK 4 it can install a shipped stylesheet
  as the user's `~/.config/gtk-N.0/gtk.css`. It keeps a single backup,
  `gtk.css.straight-corners-backup`, of the file it replaced. When the
  toggle goes off it restores that backup, or, when there is none, it
  deletes a `gtk.css` whose text carries the marker `Straight Corners`.

The model has four modules.

- `Styles` (`styles.dfy`): the category table and the stylesheet as a pure
  function of the table, the settings and the fragment table. It also gives
  an independent filter-then-concatenate definition and proves the two
  equal.
- `GtkFiles` (`gtk_files.dfy`): the path scheme of the two GTK targets, and
  install and restore as functions on an abstract filesystem. The
  filesystem is a map from paths to contents plus a set of directories. The
  module proves the laws of install and restore: what each leaves behind,
  at most one backup, the round trips, and the independence of the two
  targets.
- `StraightCorners` (`extension.dfy`): the extension object as a class.
  - Its own fields are the settings, the stylesheet slot `styleProvider`,
    the list of connection ids and the category table.
  - The class also carries the state the extension acts on: the
    filesystem, the stylesheets the theme has loaded (a multiset), and the
    settings store's handler table with its next free id.
  - Every method except `SettingsConnect` is a method of the source,
    written step by step. `SettingsConnect` stands for the host settings
    store's `connect`.
  - `BuildCss`, `LoadStyles`, `ApplyGtkStyle`, `RestoreGtkStyle`,
    `SyncGtkStyles` and the two toggle handlers are proved equal to spec
    functions of `Styles` and `GtkFiles`.
  - `ConnectSettings` and `DisconnectSettings` are specified by this
    module's own `SignalDetails`, `Subscriptions` and `IdRange`.
  - `UnloadStyles`, `Enable` and `Disable` state their new state directly.
  - `Valid()` says three things: the theme holds exactly the stylesheet in
    the slot, the slot holds the generated file, and every held connection
    id names a live handler.
- `Wrappers` (`wrappers.dfy`): `Option`, for the nullable fields.

Settings are a `map<string, bool>`; a key the map lacks reads as off. The
CSS fragments are opaque strings, taken as a constructor parameter. A
missing fragment concatenates as the text `undefined`, as it does in
JavaScript. The user's home directory and the extension's directory are
constructor parameters too.

The class follows the code, including its backup condition. The
preferences window tells the user that the original files are backed up
as `gtk.css.straight-corners-backup` (`prefs.js:181`). The code's backup
condition does not keep that promise when `gtk.css` did not exist before
the first install and the install runs again (see Findings). `GtkFiles`
therefore states the laws of install twice:

- `GtkFiles.ApplyAsWritten` is the condition as the code writes it.
- `GtkFiles.Apply` is the corrected condition.

## Model

| member | source | states |
|---|---|---|
| Styles.Composed | straight-corners@zurawski/extension.js:659-671 | The stylesheet always starts with the banner and is never blank once trimmed, so the blank check in `_loadStyles` cannot fire |
| Styles.Enabled | straight-corners@zurawski/extension.js:662-663 | The enabled categories: a category is in the result exactly when it is in the table and its setting is on, and the result is no longer than the table |
| Styles.SectionsAreJoinedEnabled | straight-corners@zurawski/extension.js:662-668 | Appending the sections one category at a time gives the same text as filtering the enabled categories and then concatenating their sections |
| Styles.ComposedIsBannerAndEnabledSections | straight-corners@zurawski/extension.js:659-671 | The stylesheet is the banner followed by header, fragment and blank line for exactly the enabled categories, in table order |
| Styles.EnabledIsSubsequence | straight-corners@zurawski/extension.js:456-471 | The enabled categories keep the table's order |
| Styles.CategoryTableIsInjective | straight-corners@zurawski/extension.js:456-471 | The table has fourteen rows, with pairwise distinct keys and pairwise distinct style names |
| Styles.NothingEnabledIsBanner | straight-corners@zurawski/extension.js:660-670 | With no category on, the stylesheet is exactly the banner |
| Styles.SectionsDependOnlyOnCategoryKeys | straight-corners@zurawski/extension.js:662-668 | Settings that agree on the keys of the categories give the same sections |
| Styles.ComposedDependsOnlyOnCategoryKeys | straight-corners@zurawski/extension.js:659-671 | Settings that agree on the category keys give the same stylesheet, whatever they say about other keys such as the GTK toggles |
| Styles.WindowsAndPanelOnly | straight-corners@zurawski/extension.js:456-458 | With only Windows and Panel on, the stylesheet is the banner, the Windows section and the Panel section, and nothing more |
| GtkFiles.TargetFor | straight-corners@zurawski/extension.js:476-483 | A version's `gtk.css` lies in its configuration directory; its backup is the `gtk.css` path followed by `.straight-corners-backup`; `gtk.css`, the backup and the shipped file are three distinct paths |
| GtkFiles.VersionsAreIndependent | straight-corners@zurawski/extension.js:476-483 | The GTK 3 and GTK 4 targets have different directories, and neither writes a path the other reads or writes |
| GtkFiles.ContainsIffOccurs | straight-corners@zurawski/extension.js:644 | The substring test holds exactly when the marker occurs at some position of the text |
| GtkFiles.Install | straight-corners@zurawski/extension.js:588-614 | An install adds the target directory and changes no file other than `gtk.css` and its backup |
| GtkFiles.ApplyAsWritten | straight-corners@zurawski/extension.js:580-618 | `_applyGtkStyle` with the backup condition as the code writes it adds the directory and touches only `gtk.css` and the backup; what it writes to `gtk.css` and the backup is stated by the `ApplyAsWritten…` lemmas |
| GtkFiles.Apply | straight-corners@zurawski/extension.js:580-618 | The corrected install, which skips the backup when `gtk.css` already holds the override, has the same frame |
| GtkFiles.ApplyAsWrittenInstallsOverride | straight-corners@zurawski/extension.js:588-614 | Code as written: after an install the directory exists. `gtk.css` holds the shipped file's text when that file exists; otherwise `gtk.css` is as it was, present or absent |
| GtkFiles.ApplyDiffersOnlyInBackup | straight-corners@zurawski/extension.js:597-601 | The code's install and the corrected one leave the same directories and the same files apart from the backup |
| GtkFiles.ApplyAsWrittenKeepsOneBackup | straight-corners@zurawski/extension.js:597-601 | Code as written: an existing backup is never overwritten. Without one, a backup appears exactly when `gtk.css` exists, and it is a copy of that `gtk.css` |
| GtkFiles.ApplyAsWrittenTwiceKeepsOriginal | straight-corners@zurawski/extension.js:597-601 | Code as written: after two installs from "`gtk.css` = X, no backup" the backup still holds X |
| GtkFiles.Restore | straight-corners@zurawski/extension.js:624-653 | `_restoreGtkStyle` leaves the directories alone, touches only `gtk.css` and the backup, and never leaves a backup behind |
| GtkFiles.ApplyInstallsOverride | straight-corners@zurawski/extension.js:588-614 | Corrected install: the directory and `gtk.css` outcomes are the same as for the code's install (ApplyDiffersOnlyInBackup). After the install the directory exists. `gtk.css` holds the shipped file's text when that file exists; otherwise `gtk.css` is as it was, present or absent |
| GtkFiles.ApplyKeepsOneBackup | straight-corners@zurawski/extension.js:597-601 | Corrected install: an existing backup is never overwritten. Without one, a backup appears exactly when `gtk.css` exists and is not already the override, and it is a copy of that `gtk.css` |
| GtkFiles.ApplyIsIdempotent | straight-corners@zurawski/extension.js:580-618 | Corrected install: installing twice is the same as installing once. The code as written is not idempotent from "no `gtk.css`" (ReapplyAsWrittenKeepsOverride) |
| GtkFiles.ApplyTwiceKeepsOriginal | straight-corners@zurawski/extension.js:597-601 | Corrected install: after two installs from a `gtk.css` that is not the override and no backup, the backup still holds that `gtk.css` |
| GtkFiles.RestoreOutcome | straight-corners@zurawski/extension.js:633-649 | With a backup, `gtk.css` gets the backup's text. Without one, a marked `gtk.css` is deleted, and otherwise nothing changes, including when neither file exists |
| GtkFiles.RoundTripAsWritten | straight-corners@zurawski/extension.js:597-637 | Code as written: starting from "`gtk.css` = X, no backup", install then restore gives back exactly the files there were, whether or not the shipped file exists |
| GtkFiles.RoundTripFromOriginal | straight-corners@zurawski/extension.js:597-637 | The same round trip with the corrected install; the directory it created stays |
| GtkFiles.RoundTripFromAbsent | straight-corners@zurawski/extension.js:608-649 | Corrected install: starting from "no `gtk.css`, no backup", install then restore deletes the installed file again, provided the shipped file carries the marker |
| GtkFiles.RoundTripAsWrittenFromAbsent | straight-corners@zurawski/extension.js:608-649 | Code as written: starting from "no `gtk.css`, no backup", install then restore deletes the installed file again, provided the shipped file carries the marker |
| GtkFiles.ReapplyThenRestoreRoundTrip | straight-corners@zurawski/extension.js:597-649 | With the corrected install, two installs then a restore give back the original files, whether `gtk.css` was absent or held other text |
| GtkFiles.ReapplyAsWrittenKeepsOverride | straight-corners@zurawski/extension.js:597-637 | Code as written: from "no `gtk.css`", two installs then a restore leave the override in `gtk.css` |
| GtkFiles.AppliesCommute | straight-corners@zurawski/extension.js:580-618 | Corrected installs on independent targets commute |
| GtkFiles.AppliesAsWrittenCommute | straight-corners@zurawski/extension.js:580-618 | Code as written: installs on independent targets commute, so the GTK 3 and GTK 4 installs never interfere |
| GtkFiles.RestoresCommute | straight-corners@zurawski/extension.js:624-653 | Restores on independent targets commute |
| GtkFiles.ApplyRestoreCommute | straight-corners@zurawski/extension.js:580-653 | A corrected install on one target and a restore on an independent one commute |
| GtkFiles.ApplyAsWrittenRestoreCommute | straight-corners@zurawski/extension.js:580-653 | Code as written: an install on one target and a restore on an independent one commute |
| StraightCorners.SignalDetails | straight-corners@zurawski/extension.js:509-530 | The subscribed signals: `changed::<key>` for each category in table order, then the GTK 4 toggle, then the GTK 3 toggle |
| StraightCorners.SignalDetailsAreDistinct | straight-corners@zurawski/extension.js:509-530 | With the extension's table there are sixteen subscriptions, and no setting is subscribed twice |
| StraightCorners.SubscribedIdsStayValid | straight-corners@zurawski/extension.js:509-530 | Subscribing under fresh ids and holding them keeps every handler id below the next free id and every held id pointing at a handler |
| StraightCorners.UnsubscribedStaysAccounted | straight-corners@zurawski/extension.js:535-540 | Dropping the held subscriptions keeps the handler table accounted for and leaves no held id |
| StraightCorners.UnsubscribeUndoesSubscribe | straight-corners@zurawski/extension.js:509-540 | Disconnecting the ids a connect handed out gives back the handler table from before the connect |
| StraightCorners.StraightCornersExtension.constructor | straight-corners@zurawski/extension.js:433-483 | A new extension object holds no settings, no stylesheet and no connections, has the fourteen-row category table, and is valid |
| StraightCorners.StraightCornersExtension.Enable | straight-corners@zurawski/extension.js:489-494 | `enable` does four things: it stores the settings; it writes and loads the composed stylesheet into the slot; it installs the override of each GTK version whose toggle is on, GTK 4 first, with the code's backup condition (`GtkFiles.ApplyAsWritten`); and it holds one new subscription per setting. From the disabled state it ends valid |
| StraightCorners.StraightCornersExtension.Disable | straight-corners@zurawski/extension.js:500-504 | `disable` removes exactly the held subscriptions, unloads and deletes the stylesheet in the slot, and drops the settings. The GTK files stay as they are. It keeps the object valid, and the theme then holds nothing of the extension's |
| StraightCorners.StraightCornersExtension.SettingsConnect | straight-corners@zurawski/extension.js:511-514 | The settings store's `connect` registers a handler under the next free id |
| StraightCorners.StraightCornersExtension.ConnectSettings | straight-corners@zurawski/extension.js:509-530 | `_connectSettings` appends the consecutive fresh ids of one handler per category, then of the GTK 4 and GTK 3 handlers, and registers exactly those handlers |
| StraightCorners.StraightCornersExtension.DisconnectSettings | straight-corners@zurawski/extension.js:535-540 | `_disconnectSettings` removes exactly the held ids from the handler table, empties the list, and keeps the object valid |
| StraightCorners.StraightCornersExtension.SyncGtkStyles | straight-corners@zurawski/extension.js:545-552 | `_syncGtkStyles` leaves the filesystem as installing (`GtkFiles.ApplyAsWritten`) each GTK version whose toggle is on, GTK 4 first, would |
| StraightCorners.StraightCornersExtension.HandleGtk4Toggle | straight-corners@zurawski/extension.js:557-563 | The GTK 4 toggle installs the GTK 4 override when on (`GtkFiles.ApplyAsWritten`) and restores the original when off (`GtkFiles.Restore`) |
| StraightCorners.StraightCornersExtension.HandleGtk3Toggle | straight-corners@zurawski/extension.js:568-574 | The same for GTK 3 |
| StraightCorners.StraightCornersExtension.ApplyGtkStyle | straight-corners@zurawski/extension.js:580-618 | The step-by-step install (make the directory, back up when `gtk.css` exists and no backup does, copy the shipped file) ends in the filesystem `GtkFiles.ApplyAsWritten` describes |
| StraightCorners.StraightCornersExtension.RestoreGtkStyle | straight-corners@zurawski/extension.js:624-653 | The step-by-step restore ends in the filesystem `GtkFiles.Restore` describes |
| StraightCorners.StraightCornersExtension.BuildCss | straight-corners@zurawski/extension.js:659-671 | The loop's result is the composed stylesheet for the current settings |
| StraightCorners.StraightCornersExtension.LoadStyles | straight-corners@zurawski/extension.js:676-709 | `_loadStyles` always writes the composed stylesheet to `dynamic-style.css`, loads that file into the theme and puts it in the slot; the blank check never returns early |
| StraightCorners.StraightCornersExtension.UnloadStyles | straight-corners@zurawski/extension.js:714-728 | `_unloadStyles` always empties the slot. When the slot held a file, that file is unloaded from the theme and deleted; otherwise nothing changes |
| StraightCorners.StraightCornersExtension.ReloadStyles | straight-corners@zurawski/extension.js:733-736 | After `_reloadStyles` the theme holds exactly one copy of the generated stylesheet, never two, and the file holds the stylesheet for the current settings |

## Left out

- The preferences window (`prefs.js`) is not part of this model. It only builds widgets and sets booleans in the settings store.
- The theme engine is an abstract multiset of loaded files. The stage and theme-context lookups are not modelled.
- Signal delivery is not modelled. The settings store is a map of booleans plus a handler table of ids and signal details. The callbacks a signal would run (`_reloadStyles`, the GTK toggle handlers) are ordinary methods that a caller invokes.
- Paths are built by plain concatenation with `/`. GLib's separator handling is not modelled, and neither is how `getSettings`, `GLib.get_home_dir` or the extension directory are looked up; the last two are constructor parameters.
- Creating the configuration directory adds only that directory. Creating missing parent directories is not modelled.
- Failures are not modelled. The `try`/`catch` blocks, console logging, a failed `replace_contents`, a failed `load_contents`, and copy or delete errors are left out, so every operation is total.
- Text encoding and decoding are left out: file contents are strings.
- The CSS fragment texts (`CssStyles`) are opaque values of a constructor parameter.
- The two shipped override files are not part of this model. `GtkFiles.RoundTripFromAbsent`, `GtkFiles.RoundTripAsWrittenFromAbsent` and `GtkFiles.ReapplyThenRestoreRoundTrip` therefore take as a precondition that the shipped text carries the marker.
- `_applyGtkStyle` and `_restoreGtkStyle` take the version as a string, and any string other than `gtk4` selects GTK 3. The model takes a two-valued `GtkVersion` instead.
- StraightCorners.StraightCornersExtension.Disable: requires that the extension hold the settings whenever it holds connections. The code needs this too, since it calls the settings store to disconnect.

## Findings

| source | as written | input that shows it | evidently intended | confidence | as-written member | corrected member |
|---|---|---|---|---|---|---|
| straight-corners@zurawski/extension.js:597-601 | A backup is made whenever `gtk.css` exists and no backup does, even when `gtk.css` is the extension's own override | No `gtk.css` and the GTK toggle on. `enable` installs the override. A second install (re-enabling, which re-runs `_syncGtkStyles`) backs up the override itself. Turning the toggle off then copies the override back from that backup instead of deleting it, so the override stays in place | Never back up a `gtk.css` that already holds the shipped override, so the restore deletes the installed file and the user returns to having no `gtk.css` | not executed | GtkFiles.ReapplyAsWrittenKeepsOverride | GtkFiles.ReapplyThenRestoreRoundTrip |
