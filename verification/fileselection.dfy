/** `find_csv_file` (code/preprocess.py): choosing a logger's export among
    the files of a directory walk. The walk itself is not modelled; the
    model receives the (folder, file name) pairs in the order `os.walk`
    yields them, and both passes of the source see that same order. */
module FileSelection {
  import opened Results
  import opened Strings

  datatype FileEntry = FileEntry(folder: string, name: string)

  const CsvExtension := ".csv"
  /** The preferred export configuration. */
  const PrimaryMarker := "Configuration 2-"
  /** The fallback export configuration. */
  const FallbackMarker := "Configuration 1-"

  /** A file qualifies for a pass when its name ends in `.csv` and contains
      both the logger id and the pass's configuration marker. */
  predicate Qualifies(entry: FileEntry, loggerId: string, marker: string) {
    EndsWith(entry.name, CsvExtension) && Contains(entry.name, loggerId) && Contains(entry.name, marker)
  }

  predicate NoneQualifies(entries: seq<FileEntry>, loggerId: string, marker: string) {
    forall j :: 0 <= j < |entries| ==> !Qualifies(entries[j], loggerId, marker)
  }

  /** `i` is the position of the first entry that qualifies for the pass. */
  predicate IsFirstQualifying(entries: seq<FileEntry>, loggerId: string, marker: string, i: nat) {
    && i < |entries|
    && Qualifies(entries[i], loggerId, marker)
    && forall j :: 0 <= j < i ==> !Qualifies(entries[j], loggerId, marker)
  }

  /** One pass: the generator inside `next(...)`, scanning from `start` on. */
  function FirstQualifying(entries: seq<FileEntry>, loggerId: string, marker: string, start: nat): (r: Option<nat>)
    requires start <= |entries|
    requires forall j :: 0 <= j < start ==> !Qualifies(entries[j], loggerId, marker)
    ensures r.Some? ==> IsFirstQualifying(entries, loggerId, marker, r.value)
    ensures r.None? ==> NoneQualifies(entries, loggerId, marker)
    decreases |entries| - start
  {
    if start == |entries| then None
    else if Qualifies(entries[start], loggerId, marker) then Some(start)
    else FirstQualifying(entries, loggerId, marker, start + 1)
  }

  /** The position of the file `find_csv_file` picks: the first
      `Configuration 2-` export, else the first `Configuration 1-` export. */
  function SelectEntry(entries: seq<FileEntry>, loggerId: string): (r: Option<nat>)
    ensures r.Some? ==> r.value < |entries|
    ensures !NoneQualifies(entries, loggerId, PrimaryMarker) ==>
      r.Some? && IsFirstQualifying(entries, loggerId, PrimaryMarker, r.value)
    ensures NoneQualifies(entries, loggerId, PrimaryMarker) && r.Some? ==>
      IsFirstQualifying(entries, loggerId, FallbackMarker, r.value)
    ensures r.None? <==>
      NoneQualifies(entries, loggerId, PrimaryMarker) && NoneQualifies(entries, loggerId, FallbackMarker)
  {
    match FirstQualifying(entries, loggerId, PrimaryMarker, 0)
    case Some(i) => Some(i)
    case None => FirstQualifying(entries, loggerId, FallbackMarker, 0)
  }

  /** `find_csv_file`: the joined path of the chosen file, or `None`. */
  function FindCsvFile(entries: seq<FileEntry>, loggerId: string): (path: Option<string>)
    ensures path.Some? ==>
      && EndsWith(path.value, CsvExtension)
      && Contains(path.value, loggerId)
      && (Contains(path.value, PrimaryMarker) || Contains(path.value, FallbackMarker))
    ensures path.None? <==>
      NoneQualifies(entries, loggerId, PrimaryMarker) && NoneQualifies(entries, loggerId, FallbackMarker)
  {
    match SelectEntry(entries, loggerId)
    case None => None
    case Some(i) =>
      var e := entries[i];
      var joined := JoinPath(e.folder, e.name);
      EndsWithTransitive(joined, e.name, CsvExtension);
      JoinPathContains(e.folder, e.name, loggerId);
      if Qualifies(e, loggerId, PrimaryMarker) then
        JoinPathContains(e.folder, e.name, PrimaryMarker);
        Some(joined)
      else
        JoinPathContains(e.folder, e.name, FallbackMarker);
        Some(joined)
  }

  /** The chosen path is the joined path of the selected entry. */
  lemma FindCsvFileIsSelectedEntry(entries: seq<FileEntry>, loggerId: string)
    ensures FindCsvFile(entries, loggerId).Some? <==> SelectEntry(entries, loggerId).Some?
    ensures SelectEntry(entries, loggerId).Some? ==>
      var e := entries[SelectEntry(entries, loggerId).value];
      FindCsvFile(entries, loggerId).value == JoinPath(e.folder, e.name)
  {
  }

  /** Only one position can be the first qualifying one. */
  lemma FirstQualifyingUnique(entries: seq<FileEntry>, loggerId: string, marker: string, i: nat, k: nat)
    requires IsFirstQualifying(entries, loggerId, marker, i)
    requires IsFirstQualifying(entries, loggerId, marker, k)
    ensures i == k
  {
  }

  /** Files that cannot qualify for either pass may be added to the walk
      anywhere without changing the chosen file. */
  lemma IrrelevantFilesIgnored(before: seq<FileEntry>, extra: FileEntry, after: seq<FileEntry>, loggerId: string)
    requires !Qualifies(extra, loggerId, PrimaryMarker) && !Qualifies(extra, loggerId, FallbackMarker)
    ensures FindCsvFile(before + [extra] + after, loggerId) == FindCsvFile(before + after, loggerId)
  {
    var with := before + [extra] + after;
    var without := before + after;
    FindCsvFileIsSelectedEntry(with, loggerId);
    FindCsvFileIsSelectedEntry(without, loggerId);
    SelectEntryShifts(before, extra, after, loggerId);
    if SelectEntry(without, loggerId).Some? {
      var k := SelectEntry(without, loggerId).value;
      assert with[ShiftPast(before, k)] == without[k];
    }
  }

  /** The position an entry of `before + after` takes once one entry is
      inserted between the two. */
  function ShiftPast(before: seq<FileEntry>, k: nat): nat {
    if k < |before| then k else k + 1
  }

  /** Inserting a file that qualifies for neither pass moves the selected
      entry along with the rest, and selects nothing new. */
  lemma SelectEntryShifts(before: seq<FileEntry>, extra: FileEntry, after: seq<FileEntry>, loggerId: string)
    requires !Qualifies(extra, loggerId, PrimaryMarker) && !Qualifies(extra, loggerId, FallbackMarker)
    ensures SelectEntry(before + [extra] + after, loggerId).Some? == SelectEntry(before + after, loggerId).Some?
    ensures SelectEntry(before + after, loggerId).Some? ==>
      SelectEntry(before + [extra] + after, loggerId).value == ShiftPast(before, SelectEntry(before + after, loggerId).value)
  {
    var with := before + [extra] + after;
    var without := before + after;
    NoneQualifiesUnchanged(before, extra, after, loggerId, PrimaryMarker);
    NoneQualifiesUnchanged(before, extra, after, loggerId, FallbackMarker);
    var r := SelectEntry(without, loggerId);
    if r.Some? {
      var k := r.value;
      var q := SelectEntry(with, loggerId).value;
      if !NoneQualifies(without, loggerId, PrimaryMarker) {
        FirstQualifyingShifts(before, extra, after, loggerId, PrimaryMarker, k);
        FirstQualifyingUnique(with, loggerId, PrimaryMarker, q, ShiftPast(before, k));
      } else {
        FirstQualifyingShifts(before, extra, after, loggerId, FallbackMarker, k);
        FirstQualifyingUnique(with, loggerId, FallbackMarker, q, ShiftPast(before, k));
      }
    }
  }

  lemma NoneQualifiesUnchanged(before: seq<FileEntry>, extra: FileEntry, after: seq<FileEntry>, loggerId: string, marker: string)
    requires !Qualifies(extra, loggerId, marker)
    ensures NoneQualifies(before + [extra] + after, loggerId, marker)
        <==> NoneQualifies(before + after, loggerId, marker)
  {
    var with := before + [extra] + after;
    var without := before + after;
    if !NoneQualifies(without, loggerId, marker) {
      var j :| 0 <= j < |without| && Qualifies(without[j], loggerId, marker);
      var shifted := if j < |before| then j else j + 1;
      assert with[shifted] == without[j];
    }
    if !NoneQualifies(with, loggerId, marker) {
      var j :| 0 <= j < |with| && Qualifies(with[j], loggerId, marker);
      assert j != |before|;
      var unshifted := if j < |before| then j else j - 1;
      assert with[j] == without[unshifted];
    }
  }

  /** The first qualifying entry keeps its place relative to the other files
      when a non-qualifying entry is inserted. */
  lemma FirstQualifyingShifts(before: seq<FileEntry>, extra: FileEntry, after: seq<FileEntry>, loggerId: string, marker: string, k: nat)
    requires !Qualifies(extra, loggerId, marker)
    requires IsFirstQualifying(before + after, loggerId, marker, k)
    ensures IsFirstQualifying(before + [extra] + after, loggerId, marker, ShiftPast(before, k))
  {
    var with := before + [extra] + after;
    var without := before + after;
    var shifted := ShiftPast(before, k);
    assert with[shifted] == without[k];
    forall j | 0 <= j < shifted
      ensures !Qualifies(with[j], loggerId, marker)
    {
      if j < |before| {
        assert with[j] == without[j];
      } else if j > |before| {
        assert with[j] == without[j - 1];
      }
    }
  }
}
