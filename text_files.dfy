/*
 * The pure half of the plain-text / markdown importer
 * (lib/utils/import/text-files/index.ts): which files are read at all, how a
 * note title is derived from a file name, and how the note content and its
 * dates are built from what a read delivered.
 */
module TextFiles {

  datatype Option<+T> = None | Some(value: T)

  /** The parts of a browser `File` the importer looks at. */
  datatype FileCandidate = FileCandidate(name: string, size: nat, lastModified: int)

  /** Files larger than this many bytes are never read. */
  const MaxFileSize: nat := 1000000

  /** What is put between the title and the raw content when the title is prepended. */
  const TitleSeparator: string := "\n\n"

  // ---------------------------------------------------------------------------
  // String helpers: `toLowerCase`, `lastIndexOf`, the anchored regex and
  // lodash `startsWith`, as predicates and functions on sequences.
  // ---------------------------------------------------------------------------

  /** Lower-cases the ASCII letters and leaves every other character alone. */
  function LowerChar(c: char): char {
    if 'A' <= c <= 'Z' then (c as int - 'A' as int + 'a' as int) as char else c
  }

  function Lower(s: string): (r: string)
    ensures |r| == |s|
  {
    if s == [] then [] else Lower(s[..|s| - 1]) + [LowerChar(s[|s| - 1])]
  }

  lemma {:induction false} LowerAt(s: string, k: nat)
    requires k < |s|
    ensures Lower(s)[k] == LowerChar(s[k])
  {
    if k < |s| - 1 {
      LowerAt(s[..|s| - 1], k);
    }
  }

  lemma LowerAppend(a: string, b: string)
    ensures Lower(a + b) == Lower(a) + Lower(b)
  {
    forall k | 0 <= k < |a + b| ensures Lower(a + b)[k] == (Lower(a) + Lower(b))[k] {
      LowerAt(a + b, k);
      if k < |a| { LowerAt(a, k); } else { LowerAt(b, k - |a|); }
    }
  }

  predicate StartsWith(s: string, prefix: string) {
    |prefix| <= |s| && s[..|prefix|] == prefix
  }

  predicate EndsWith(s: string, suffix: string) {
    |suffix| <= |s| && forall k :: 0 <= k < |suffix| ==> s[|s| - |suffix| + k] == suffix[k]
  }

  /** The index of the last occurrence of `c` in `s`, or -1 when there is none. */
  function LastIndexOf(s: string, c: char): (r: int)
    ensures -1 <= r < |s|
    ensures 0 <= r ==> s[r] == c
    ensures forall k :: r < k < |s| ==> s[k] != c
    decreases |s|
  {
    if |s| == 0 then -1
    else if s[|s| - 1] == c then |s| - 1
    else LastIndexOf(s[..|s| - 1], c)
  }

  // ---------------------------------------------------------------------------
  // File filter
  // ---------------------------------------------------------------------------

  /** The regex `/\.(txt|md)$/` matched against the lower-cased name. */
  predicate HasAllowableName(name: string) {
    var lower := Lower(name);
    EndsWith(lower, ".txt") || EndsWith(lower, ".md")
  }

  /** A file is read exactly when its name is allowable and it is at most 1 MB. */
  predicate IsEligible(file: FileCandidate) {
    HasAllowableName(file.name) && file.size <= MaxFileSize
  }

  /** The files of a batch that get dispatched for reading, in batch order. */
  function Dispatched(files: seq<FileCandidate>): (r: seq<FileCandidate>)
    ensures |r| <= |files|
  {
    if files == [] then []
    else
      var last := files[|files| - 1];
      Dispatched(files[..|files| - 1]) + (if IsEligible(last) then [last] else [])
  }

  /** A file is dispatched exactly when it is in the batch and eligible. */
  lemma {:induction false} DispatchedMembers(files: seq<FileCandidate>, f: FileCandidate)
    ensures f in Dispatched(files) <==> f in files && IsEligible(f)
  {
    if files != [] {
      var init, last := files[..|files| - 1], files[|files| - 1];
      assert files == init + [last];
      DispatchedMembers(init, f);
    }
  }

  /** Extending the batch by one file dispatches that file too when it is eligible. */
  lemma DispatchedSnoc(files: seq<FileCandidate>, i: nat)
    requires i < |files|
    ensures Dispatched(files[..i + 1]) == Dispatched(files[..i]) + (if IsEligible(files[i]) then [files[i]] else [])
  {
    assert files[..i + 1][..i] == files[..i];
  }

  /** A batch of eligible files is dispatched whole, in order. */
  lemma {:induction false} DispatchedAllEligible(files: seq<FileCandidate>)
    requires forall k :: 0 <= k < |files| ==> IsEligible(files[k])
    ensures Dispatched(files) == files
  {
    if files != [] {
      DispatchedAllEligible(files[..|files| - 1]);
      assert files == files[..|files| - 1] + [files[|files| - 1]];
    }
  }

  /** Filtering the dispatched files again dispatches the same files. */
  lemma {:induction false} DispatchedIdempotent(files: seq<FileCandidate>)
    ensures Dispatched(Dispatched(files)) == Dispatched(files)
  {
    if files != [] {
      var init, last := files[..|files| - 1], files[|files| - 1];
      DispatchedIdempotent(init);
      var d := Dispatched(init);
      if IsEligible(last) {
        var dl := d + [last];
        assert dl[..|dl| - 1] == d;
        assert Dispatched(dl) == Dispatched(d) + [last];
      } else {
        assert Dispatched(files) == d;
      }
    }
  }

  // ---------------------------------------------------------------------------
  // Content normaliser
  // ---------------------------------------------------------------------------

  /**
   * `name.substring(0, name.lastIndexOf('.'))`: everything before the last
   * dot, and the empty string when the name has no dot (`substring` clamps
   * the -1 to 0).
   */
  function Title(name: string): (title: string)
    ensures '.' !in name ==> title == ""
    ensures '.' in name ==>
      && |title| < |name|
      && name[..|title|] == title
      && name[|title|] == '.'
      && '.' !in name[|title| + 1..]
  {
    var dot := LastIndexOf(name, '.');
    if dot < 0 then "" else name[..dot]
  }

  lemma LowerSuffix(s: string, j: nat)
    requires j <= |s|
    ensures Lower(s[j..]) == Lower(s)[j..]
  {
    assert s == s[..j] + s[j..];
    LowerAppend(s[..j], s[j..]);
  }

  /**
   * When the lower-cased name ends in `ext`, a dot followed by dot-free
   * characters, the title is the name with the last `|ext|` characters cut off.
   */
  lemma TitleBeforeSuffix(name: string, ext: string)
    requires EndsWith(Lower(name), ext)
    requires |ext| > 0 && ext[0] == '.' && '.' !in ext[1..]
    ensures |Title(name)| == |name| - |ext| && name[|name| - |ext|] == '.'
    ensures Lower(name[|name| - |ext| + 1..]) == ext[1..]
  {
    var lower := Lower(name);
    var at := |name| - |ext|;
    assert name[at] == '.' by {
      LowerAt(name, at);
      assert lower[at + 0] == ext[0];
    }
    assert LastIndexOf(name, '.') == at by {
      forall k | at < k < |name| ensures name[k] != '.' {
        LowerAt(name, k);
        assert lower[at + (k - at)] == ext[k - at];
        assert ext[k - at] in ext[1..];
      }
    }
    assert lower[at + 1..] == ext[1..] by {
      forall k | 0 <= k < |ext| - 1 ensures lower[at + 1..][k] == ext[1..][k] {
        assert lower[at + (k + 1)] == ext[k + 1];
      }
    }
    LowerSuffix(name, at + 1);
  }

  /** The title of an allowable name is the name with its `.txt`/`.md` extension cut off. */
  lemma AllowableNameSplits(name: string)
    requires HasAllowableName(name)
    ensures var title := Title(name);
      && |title| < |name|
      && name[|title|] == '.'
      && (Lower(name[|title| + 1..]) == "txt" || Lower(name[|title| + 1..]) == "md")
  {
    var ext := if EndsWith(Lower(name), ".txt") then ".txt" else ".md";
    assert ext[1..] == if ext == ".txt" then "txt" else "md";
    TitleBeforeSuffix(name, ext);
  }

  lemma EndsWithAppend(a: string, b: string)
    ensures EndsWith(a + b, b)
  {
    forall k | 0 <= k < |b| ensures (a + b)[|a + b| - |b| + k] == b[k] {
      assert |a + b| - |b| + k == |a| + k;
    }
  }

  /** The last occurrence is the one at `i` when nothing after `i` matches. */
  lemma LastIndexOfAt(s: string, c: char, i: nat)
    requires i < |s| && s[i] == c
    requires forall k :: i < k < |s| ==> s[k] != c
    ensures LastIndexOf(s, c) == i
  {
  }

  /** Joining a title and a recognised extension gives an allowable name whose title is that title. */
  lemma TitleOfJoinedName(title: string, ext: string)
    requires Lower(ext) == "txt" || Lower(ext) == "md"
    ensures HasAllowableName(title + "." + ext)
    ensures Title(title + "." + ext) == title
  {
    var name := title + "." + ext;
    var suffix := "." + Lower(ext);
    assert Lower(name) == Lower(title) + suffix by {
      LowerAppend(title + ".", ext);
      LowerAppend(title, ".");
      LowerAt(".", 0);
      assert Lower(".") == ".";
    }
    assert suffix == ".txt" || suffix == ".md";
    EndsWithAppend(Lower(title), suffix);
    assert LastIndexOf(name, '.') == |title| by {
      forall k | |title| < k < |name| ensures name[k] != '.' {
        assert name[k] == ext[k - |title| - 1];
        LowerAt(ext, k - |title| - 1);
      }
      LastIndexOfAt(name, '.', |title|);
    }
    assert name[..|title|] == title;
  }

  /**
   * Prepends `title` and a blank line unless `content` already begins with
   * `title` (case-sensitive, byte for byte).
   */
  function Normalize(title: string, content: string): (r: string)
    ensures StartsWith(r, title)
    ensures r == content <==> StartsWith(content, title)
    ensures r != content ==> r == title + TitleSeparator + content
  {
    if StartsWith(content, title) then content else title + TitleSeparator + content
  }

  /** Normalising an already normalised content changes nothing. */
  lemma NormalizeIdempotent(title: string, content: string)
    ensures Normalize(title, Normalize(title, content)) == Normalize(title, content)
  {
  }

  /** The normalised content is empty only when both the title and the raw content are. */
  lemma NormalizeEmptyIff(title: string, content: string)
    ensures Normalize(title, content) == "" <==> title == "" && content == ""
  {
  }

  // ---------------------------------------------------------------------------
  // Note draft
  // ---------------------------------------------------------------------------

  /**
   * The instant `lastModified / 1000`. The division is JavaScript floating
   * point division without rounding; it is kept symbolic, so two instants are
   * equal exactly when they come from the same `lastModified`.
   */
  datatype Instant = LastModifiedOver1000(lastModified: int)

  function ModifiedTime(lastModified: int): Instant {
    LastModifiedOver1000(lastModified)
  }

  datatype NoteDraft = NoteDraft(content: string, modificationDate: Instant, creationDate: Instant)

  /** The draft built from a read of `file` that delivered `content`, or None when there is nothing to import. */
  function Draft(file: FileCandidate, content: string): (r: Option<NoteDraft>)
    ensures r.None? <==> Title(file.name) == "" && content == ""
    ensures r.Some? ==>
      && r.value.content == Normalize(Title(file.name), content)
      && r.value.creationDate == r.value.modificationDate == ModifiedTime(file.lastModified)
  {
    var noteContent := Normalize(Title(file.name), content);
    if noteContent == "" then None
    else
      var modifiedTime := ModifiedTime(file.lastModified);
      Some(NoteDraft(noteContent, modifiedTime, modifiedTime))
  }

  /**
   * An eligible file yields no draft only when its name is nothing but the
   * extension (`.txt`, `.MD`, ...) and the read delivered the empty string.
   */
  lemma EmptyDraftOnlyForBareExtension(file: FileCandidate, content: string)
    requires IsEligible(file)
    requires Draft(file, content).None?
    ensures content == ""
    ensures Lower(file.name) == ".txt" || Lower(file.name) == ".md"
  {
    AllowableNameSplits(file.name);
    var name := file.name;
    assert Title(name) == "";
    assert name == name[..1] + name[1..];
    LowerAppend(name[..1], name[1..]);
    LowerAt(name[..1], 0);
  }

  /** The name of the last file of a batch by position, or "" for an empty batch. */
  function LastFileName(files: seq<FileCandidate>): string {
    if files == [] then "" else files[|files| - 1].name
  }
}
