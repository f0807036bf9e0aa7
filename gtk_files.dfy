/**
 * The GTK configuration override: for each of the two GTK versions the
 * extension installs a shipped stylesheet as the user's gtk.css, keeps one
 * backup of the file it replaced, and on restore puts that backup back or
 * deletes a file it recognises as its own.
 *
 * The filesystem is a map from paths to file contents plus the set of
 * existing directories; every operation works on one target's paths only.
 */
module GtkFiles {

  type Path = string

  /** The part of the filesystem the extension touches. */
  datatype Fs = Fs(files: map<Path, string>, dirs: set<Path>)

  /** The paths of one GTK version: its configuration directory, its
      gtk.css, the backup beside it, and the override file the extension ships. */
  datatype Target = Target(dir: Path, css: Path, backup: Path, source: Path)

  datatype GtkVersion = Gtk3 | Gtk4

  /** The text that identifies a gtk.css the extension wrote. */
  const Marker: string := "Straight Corners"

  /** What the backup's name adds to the name of gtk.css. */
  const BackupSuffix: string := ".straight-corners-backup"

  function VersionDirName(v: GtkVersion): string
  {
    match v
    case Gtk4 => "gtk-4.0"
    case Gtk3 => "gtk-3.0"
  }

  function SourceName(v: GtkVersion): string
  {
    match v
    case Gtk4 => "gtk4-straight-corners.css"
    case Gtk3 => "gtk3-straight-corners.css"
  }

  /** The three paths of a target that differ from each other, as an
      operation needs them to. */
  predicate WellFormed(t: Target)
  {
    t.css != t.backup && t.source != t.css && t.source != t.backup
  }

  /** Neither target writes a path the other one reads or writes. */
  predicate Independent(t1: Target, t2: Target)
  {
    && {t1.css, t1.backup} !! {t2.css, t2.backup, t2.source}
    && {t2.css, t2.backup} !! {t1.css, t1.backup, t1.source}
  }

  /** The paths of a GTK version under the home directory `home`, with the
      override shipped in the extension directory `extPath`. The backup is
      the path `<dir>/gtk.css.straight-corners-backup`, written here as
      gtk.css's path followed by the suffix. */
  function TargetFor(home: Path, extPath: Path, v: GtkVersion): (t: Target)
    ensures t.css == t.dir + "/gtk.css"
    ensures t.backup == t.css + BackupSuffix
    ensures WellFormed(t)
  {
    var dir := home + "/.config/" + VersionDirName(v);
    var css := dir + "/gtk.css";
    var source := extPath + "/" + SourceName(v);
    SuffixesDiffer(css, source, dir, extPath, v);
    Target(dir, css, css + BackupSuffix, source)
  }

  lemma SuffixesDiffer(css: Path, source: Path, dir: Path, extPath: Path, v: GtkVersion)
    requires css == dir + "/gtk.css" && source == extPath + "/" + SourceName(v)
    ensures css != source && css + BackupSuffix != source && css != css + BackupSuffix
  {
    var b := css + BackupSuffix;
    assert css[|css| - 5] == 'k';
    assert source[|source| - 5] == 's';
    assert b[|b| - 1] == 'p';
    assert source[|source| - 1] == 's';
  }

  /** The gtk3 and gtk4 targets share no path an operation writes: each
      version's operations leave the other version's files alone. */
  lemma VersionsAreIndependent(home: Path, extPath: Path)
    ensures Independent(TargetFor(home, extPath, Gtk3), TargetFor(home, extPath, Gtk4))
    ensures TargetFor(home, extPath, Gtk3).dir != TargetFor(home, extPath, Gtk4).dir
  {
    var t3, t4 := TargetFor(home, extPath, Gtk3), TargetFor(home, extPath, Gtk4);
    // the version digit follows "/.config/gtk-", thirteen characters after the home directory
    var k := |home| + 13;
    assert t3.dir[k] == '3' && t4.dir[k] == '4';
    assert t3.css[k] == '3' && t4.css[k] == '4';
    assert t3.backup[k] == '3' && t4.backup[k] == '4';
    assert |t3.css| == |t4.css| < |t3.backup| == |t4.backup|;
    SuffixesDiffer(t3.css, t4.source, t3.dir, extPath, Gtk4);
    SuffixesDiffer(t4.css, t3.source, t4.dir, extPath, Gtk3);
  }

  /** JavaScript's `text.includes(pattern)`. */
  function Contains(text: string, pattern: string): bool
    decreases |text|
  {
    if |text| < |pattern| then false
    else if text[..|pattern|] == pattern then true
    else |text| > 0 && Contains(text[1..], pattern)
  }

  /** `pattern` occurs in `text` starting at position `i`. */
  predicate OccursAt(text: string, pattern: string, i: int)
  {
    0 <= i <= |text| - |pattern| && text[i..i + |pattern|] == pattern
  }

  /** `Contains` holds exactly when the pattern occurs at some position. */
  lemma {:induction false} ContainsIffOccurs(text: string, pattern: string)
    ensures Contains(text, pattern) <==> exists i :: OccursAt(text, pattern, i)
  {
    if |text| < |pattern| {
    } else if text[..|pattern|] == pattern {
      assert OccursAt(text, pattern, 0);
    } else {
      ContainsIffOccurs(text[1..], pattern);
      forall i | OccursAt(text[1..], pattern, i)
        ensures OccursAt(text, pattern, i + 1)
      {
        assert text[i + 1..i + 1 + |pattern|] == text[1..][i..i + |pattern|];
      }
      forall i | OccursAt(text, pattern, i)
        ensures OccursAt(text[1..], pattern, i - 1)
      {
        assert i != 0;
        assert text[1..][i - 1..i - 1 + |pattern|] == text[i..i + |pattern|];
      }
    }
  }

  // ----- Installing the override -----

  /** gtk.css already holds exactly the shipped override. */
  predicate HoldsOverride(files: map<Path, string>, t: Target)
  {
    t.css in files && t.source in files && files[t.css] == files[t.source]
  }

  /** The backup condition as the source writes it: gtk.css exists and no
      backup exists yet. */
  predicate BacksUpAsWritten(files: map<Path, string>, t: Target)
  {
    t.css in files && t.backup !in files
  }

  /** The corrected backup condition: in addition, gtk.css is not already
      the override (see ReapplyAsWrittenKeepsOverride). */
  predicate BacksUp(files: map<Path, string>, t: Target)
  {
    BacksUpAsWritten(files, t) && !HoldsOverride(files, t)
  }

  /** The steps of an install: create the directory, copy gtk.css to the
      backup when `backUp` says so, then copy the override over gtk.css
      when the override exists. */
  function Install(fs: Fs, t: Target, backUp: bool): (r: Fs)
    requires backUp ==> t.css in fs.files
    ensures r.dirs == fs.dirs + {t.dir}
    ensures r.files - {t.css, t.backup} == fs.files - {t.css, t.backup}
  {
    var files := if backUp then fs.files[t.backup := fs.files[t.css]] else fs.files;
    Fs(if t.source in files then files[t.css := files[t.source]] else files, fs.dirs + {t.dir})
  }

  /** `_applyGtkStyle` with the backup condition the source writes. */
  function ApplyAsWritten(fs: Fs, t: Target): (r: Fs)
    ensures r.dirs == fs.dirs + {t.dir}
    ensures r.files - {t.css, t.backup} == fs.files - {t.css, t.backup}
  {
    Install(fs, t, BacksUpAsWritten(fs.files, t))
  }

  /** `_applyGtkStyle` with the corrected backup condition. */
  function Apply(fs: Fs, t: Target): (r: Fs)
    ensures r.dirs == fs.dirs + {t.dir}
    ensures r.files - {t.css, t.backup} == fs.files - {t.css, t.backup}
  {
    Install(fs, t, BacksUp(fs.files, t))
  }

  // ----- Restoring the original -----

  /** `_restoreGtkStyle`: with a backup, copy it over gtk.css and delete it;
      without one, delete gtk.css only when its text holds the marker. */
  function Restore(fs: Fs, t: Target): (r: Fs)
    ensures r.dirs == fs.dirs
    ensures r.files - {t.css, t.backup} == fs.files - {t.css, t.backup}
    ensures t.backup !in r.files
  {
    if t.backup in fs.files then
      Fs(fs.files[t.css := fs.files[t.backup]] - {t.backup}, fs.dirs)
    else if t.css in fs.files && Contains(fs.files[t.css], Marker) then
      Fs(fs.files - {t.css}, fs.dirs)
    else
      fs
  }

  // ----- Laws of install -----

  /** After an install the directory exists; gtk.css holds the override when
      the override exists and is left as it was otherwise. */
  lemma ApplyInstallsOverride(fs: Fs, t: Target)
    requires WellFormed(t)
    ensures t.dir in Apply(fs, t).dirs
    ensures t.source in fs.files ==>
      t.css in Apply(fs, t).files && Apply(fs, t).files[t.css] == fs.files[t.source]
    ensures t.source !in fs.files ==>
      (t.css in Apply(fs, t).files <==> t.css in fs.files) &&
      (t.css in fs.files ==> Apply(fs, t).files[t.css] == fs.files[t.css])
  {
  }

  /** An existing backup is never overwritten, and a backup is only ever a
      copy of the gtk.css that was there before. */
  lemma ApplyKeepsOneBackup(fs: Fs, t: Target)
    requires WellFormed(t)
    ensures t.backup in fs.files ==>
      t.backup in Apply(fs, t).files && Apply(fs, t).files[t.backup] == fs.files[t.backup]
    ensures t.backup !in fs.files ==>
      (t.backup in Apply(fs, t).files <==> t.css in fs.files && !HoldsOverride(fs.files, t))
    ensures t.backup !in fs.files && t.backup in Apply(fs, t).files ==>
      Apply(fs, t).files[t.backup] == fs.files[t.css]
  {
  }

  /** The source as written: an existing backup is never overwritten, and
      without one a backup appears exactly when gtk.css exists, as a copy of it. */
  lemma ApplyAsWrittenKeepsOneBackup(fs: Fs, t: Target)
    requires WellFormed(t)
    ensures t.backup in fs.files ==>
      t.backup in ApplyAsWritten(fs, t).files && ApplyAsWritten(fs, t).files[t.backup] == fs.files[t.backup]
    ensures t.backup !in fs.files ==>
      (t.backup in ApplyAsWritten(fs, t).files <==> t.css in fs.files)
    ensures t.backup !in fs.files && t.css in fs.files ==>
      ApplyAsWritten(fs, t).files[t.backup] == fs.files[t.css]
  {
  }

  /** The source as written: after two installs from "gtk.css = X, no
      backup" the backup still holds X. */
  lemma ApplyAsWrittenTwiceKeepsOriginal(fs: Fs, t: Target)
    requires WellFormed(t)
    requires t.css in fs.files && t.backup !in fs.files
    ensures t.backup in ApplyAsWritten(ApplyAsWritten(fs, t), t).files
    ensures ApplyAsWritten(ApplyAsWritten(fs, t), t).files[t.backup] == fs.files[t.css]
  {
    ApplyAsWrittenKeepsOneBackup(fs, t);
    ApplyAsWrittenKeepsOneBackup(ApplyAsWritten(fs, t), t);
  }

  /** The source as written: after an install the directory exists; gtk.css
      holds the override when the override exists and is left as it was otherwise. */
  lemma ApplyAsWrittenInstallsOverride(fs: Fs, t: Target)
    requires WellFormed(t)
    ensures t.dir in ApplyAsWritten(fs, t).dirs
    ensures t.source in fs.files ==>
      t.css in ApplyAsWritten(fs, t).files && ApplyAsWritten(fs, t).files[t.css] == fs.files[t.source]
    ensures t.source !in fs.files ==>
      (t.css in ApplyAsWritten(fs, t).files <==> t.css in fs.files) &&
      (t.css in fs.files ==> ApplyAsWritten(fs, t).files[t.css] == fs.files[t.css])
  {
  }

  /** The two backup conditions lead to the same directories and the same
      files apart from the backup. */
  lemma ApplyDiffersOnlyInBackup(fs: Fs, t: Target)
    requires WellFormed(t)
    ensures Apply(fs, t).dirs == ApplyAsWritten(fs, t).dirs
    ensures Apply(fs, t).files - {t.backup} == ApplyAsWritten(fs, t).files - {t.backup}
  {
  }

  /** Installing twice is installing once. */
  lemma ApplyIsIdempotent(fs: Fs, t: Target)
    requires WellFormed(t)
    ensures Apply(Apply(fs, t), t) == Apply(fs, t)
  {
    var once := Apply(fs, t);
    assert !BacksUp(once.files, t);
    assert Install(once, t, false).files == once.files;
  }

  /** After two installs the backup still holds the gtk.css from before the first. */
  lemma ApplyTwiceKeepsOriginal(fs: Fs, t: Target)
    requires WellFormed(t)
    requires t.css in fs.files && t.backup !in fs.files && !HoldsOverride(fs.files, t)
    ensures t.backup in Apply(Apply(fs, t), t).files
    ensures Apply(Apply(fs, t), t).files[t.backup] == fs.files[t.css]
  {
    ApplyIsIdempotent(fs, t);
  }

  // ----- Laws of restore -----

  /** The outcomes of a restore: the backup wins when present; otherwise a
      marked gtk.css is deleted and an unmarked one, or a missing one, is left alone. */
  lemma RestoreOutcome(fs: Fs, t: Target)
    requires WellFormed(t)
    ensures t.backup in fs.files ==>
      t.css in Restore(fs, t).files && Restore(fs, t).files[t.css] == fs.files[t.backup]
    ensures t.backup !in fs.files && t.css in fs.files && Contains(fs.files[t.css], Marker) ==>
      t.css !in Restore(fs, t).files
    ensures t.backup !in fs.files && !(t.css in fs.files && Contains(fs.files[t.css], Marker)) ==>
      Restore(fs, t) == fs
  {
  }

  // ----- Round trips -----

  /** Install then restore from "gtk.css = X, no backup" gives back exactly
      the files there were, with the directory left in place. */
  lemma RoundTripFromOriginal(fs: Fs, t: Target)
    requires WellFormed(t)
    requires t.css in fs.files && t.backup !in fs.files && t.source in fs.files
    requires fs.files[t.css] != fs.files[t.source]
    ensures Restore(Apply(fs, t), t).files == fs.files
    ensures Restore(Apply(fs, t), t).dirs == fs.dirs + {t.dir}
  {
    var r := Restore(Apply(fs, t), t);
    assert r.files == fs.files[t.backup := fs.files[t.css]][t.css := fs.files[t.source]][t.css := fs.files[t.css]] - {t.backup};
  }

  /** Install then restore from "no gtk.css, no backup" deletes the installed
      file again, provided the override carries the marker. */
  lemma RoundTripFromAbsent(fs: Fs, t: Target)
    requires WellFormed(t)
    requires t.css !in fs.files && t.backup !in fs.files && t.source in fs.files
    requires Contains(fs.files[t.source], Marker)
    ensures Restore(Apply(fs, t), t).files == fs.files
  {
    assert Restore(Apply(fs, t), t).files == fs.files[t.css := fs.files[t.source]] - {t.css};
  }

  /** The source as written: install then restore from "no gtk.css, no
      backup" deletes the installed file again, provided the override
      carries the marker. */
  lemma RoundTripAsWrittenFromAbsent(fs: Fs, t: Target)
    requires WellFormed(t)
    requires t.css !in fs.files && t.backup !in fs.files && t.source in fs.files
    requires Contains(fs.files[t.source], Marker)
    ensures Restore(ApplyAsWritten(fs, t), t).files == fs.files
  {
    assert Restore(ApplyAsWritten(fs, t), t).files == fs.files[t.css := fs.files[t.source]] - {t.css};
  }

  /** The same round trip with any number of installs before the restore:
      with the corrected condition a repeated install never backs up the
      override itself. */
  lemma ReapplyThenRestoreRoundTrip(fs: Fs, t: Target)
    requires WellFormed(t)
    requires t.backup !in fs.files && t.source in fs.files
    requires Contains(fs.files[t.source], Marker)
    requires t.css in fs.files ==> fs.files[t.css] != fs.files[t.source]
    ensures Restore(Apply(Apply(fs, t), t), t).files == fs.files
  {
    ApplyIsIdempotent(fs, t);
    if t.css in fs.files {
      RoundTripFromOriginal(fs, t);
    } else {
      RoundTripFromAbsent(fs, t);
    }
  }

  /** The source as written: install then restore from "gtk.css = X, no
      backup" gives back X and no backup, whether or not the override exists. */
  lemma RoundTripAsWritten(fs: Fs, t: Target)
    requires WellFormed(t)
    requires t.css in fs.files && t.backup !in fs.files
    ensures Restore(ApplyAsWritten(fs, t), t).files == fs.files
  {
    var r := Restore(ApplyAsWritten(fs, t), t);
    if t.source in fs.files {
      assert r.files == fs.files[t.backup := fs.files[t.css]][t.css := fs.files[t.source]][t.css := fs.files[t.css]] - {t.backup};
    } else {
      assert r.files == fs.files[t.backup := fs.files[t.css]][t.css := fs.files[t.css]] - {t.backup};
    }
  }

  /** The source as written, installing twice from "no gtk.css": the second
      install backs up the override itself, so the restore copies the
      override back instead of deleting it. */
  lemma ReapplyAsWrittenKeepsOverride(fs: Fs, t: Target)
    requires WellFormed(t)
    requires t.css !in fs.files && t.backup !in fs.files && t.source in fs.files
    ensures t.css in Restore(ApplyAsWritten(ApplyAsWritten(fs, t), t), t).files
    ensures Restore(ApplyAsWritten(ApplyAsWritten(fs, t), t), t).files[t.css] == fs.files[t.source]
  {
    var once := ApplyAsWritten(fs, t);
    assert once.files == fs.files[t.css := fs.files[t.source]];
    var twice := ApplyAsWritten(once, t);
    assert twice.files[t.backup] == fs.files[t.source];
  }

  // ----- Independence of targets -----

  /** Installs on independent targets commute: the gtk3 and gtk4 overrides
      never interfere. */
  lemma AppliesCommute(fs: Fs, t1: Target, t2: Target)
    requires WellFormed(t1) && WellFormed(t2) && Independent(t1, t2)
    ensures Apply(Apply(fs, t1), t2) == Apply(Apply(fs, t2), t1)
  {
  }

  /** The source as written: installs on independent targets commute. */
  lemma AppliesAsWrittenCommute(fs: Fs, t1: Target, t2: Target)
    requires WellFormed(t1) && WellFormed(t2) && Independent(t1, t2)
    ensures ApplyAsWritten(ApplyAsWritten(fs, t1), t2) == ApplyAsWritten(ApplyAsWritten(fs, t2), t1)
  {
  }

  /** Restores on independent targets commute. */
  lemma RestoresCommute(fs: Fs, t1: Target, t2: Target)
    requires WellFormed(t1) && WellFormed(t2) && Independent(t1, t2)
    ensures Restore(Restore(fs, t1), t2) == Restore(Restore(fs, t2), t1)
  {
  }

  /** An install on one target and a restore on an independent one commute. */
  lemma ApplyRestoreCommute(fs: Fs, t1: Target, t2: Target)
    requires WellFormed(t1) && WellFormed(t2) && Independent(t1, t2)
    ensures Restore(Apply(fs, t1), t2) == Apply(Restore(fs, t2), t1)
  {
  }

  /** The source as written: an install on one target and a restore on an
      independent one commute. */
  lemma ApplyAsWrittenRestoreCommute(fs: Fs, t1: Target, t2: Target)
    requires WellFormed(t1) && WellFormed(t2) && Independent(t1, t2)
    ensures Restore(ApplyAsWritten(fs, t1), t2) == ApplyAsWritten(Restore(fs, t2), t1)
  {
  }
}
