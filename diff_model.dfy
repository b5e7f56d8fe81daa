/**
 * The parser's output: files, their hunks, and the hunks' numbered lines.
 * The records are plain values; the `UUID` identities they carry for
 * SwiftUI lists are not part of the model.
 */
module DiffModel {
  import opened Optional
  import opened Text

  /** Prefix of the line that opens one file entry. */
  const FileMarker: string := "diff --git"

  /** Prefix of a hunk header line. */
  const HunkMarker: string := "@@"

  /** Sentinel path for the missing side of an added or deleted file. */
  const DevNull: string := "/dev/null"

  /**
   * One line of a hunk. The Swift record pairs a `LineType` tag with two
   * optional numbers; here each tag carries exactly the numbers it has,
   * so an added line cannot hold an old number and a removed line cannot
   * hold a new one. `Header` exists in the tag set but carries none.
   */
  datatype DiffLine =
    | Added(content: string, newLineNumber: nat)
    | Removed(content: string, oldLineNumber: nat)
    | Context(content: string, oldLineNumber: nat, newLineNumber: nat)
    | Header(content: string)
  {
    /** The Swift `oldLineNumber: Int?` field. */
    function OldNumber(): (r: Option<nat>)
      ensures r.Some? <==> (Removed? || Context?)
    {
      if Removed? || Context? then Some(oldLineNumber) else None
    }

    /** The Swift `newLineNumber: Int?` field. */
    function NewNumber(): (r: Option<nat>)
      ensures r.Some? <==> (Added? || Context?)
    {
      if Added? || Context? then Some(newLineNumber) else None
    }
  }

  /** One `@@ ... @@` region: the decoded header, its raw text, and its lines. */
  datatype DiffHunk = DiffHunk(
    oldStart: nat,
    oldCount: nat,
    newStart: nat,
    newCount: nat,
    header: string,
    lines: seq<DiffLine>)

  /** One file entry of a diff. */
  datatype DiffFile = DiffFile(
    oldPath: string,
    newPath: string,
    hunks: seq<DiffHunk>,
    isBinary: bool,
    isRenamed: bool)

  /**
   * The separator `displayName` puts between the two paths of a rename: the
   * arrow U+2192, which DiffFile.swift:23 holds mis-encoded as three characters.
   */
  const RenameArrow: string := " \U{2192} "

  /**
   * `DiffFile.displayName`: "old → new" for a rename, otherwise the new
   * path, or the old path when the new one is empty. A rename's name starts
   * with the old path, ends with the new one, and has the arrow between.
   */
  function DisplayName(f: DiffFile): (name: string)
    ensures f.isRenamed ==>
      && |name| == |f.oldPath| + |RenameArrow| + |f.newPath|
      && HasPrefix(name, f.oldPath)
      && name[|f.oldPath|..|f.oldPath| + |RenameArrow|] == RenameArrow
      && name[|name| - |f.newPath|..] == f.newPath
    ensures !f.isRenamed ==> name == f.oldPath || name == f.newPath
  {
    if f.isRenamed then f.oldPath + RenameArrow + f.newPath
    else if f.newPath == "" then f.oldPath
    else f.newPath
  }

  /**
   * A file that is not renamed shows one of its two paths: the new path
   * when there is one, else the old path; it is empty only when both are.
   */
  lemma PlainDisplayName(f: DiffFile)
    requires !f.isRenamed
    ensures f.newPath != "" ==> DisplayName(f) == f.newPath
    ensures f.newPath == "" ==> DisplayName(f) == f.oldPath
    ensures DisplayName(f) == "" <==> f.oldPath == "" && f.newPath == ""
  {
  }

  /**
   * A deleted file keeps the `/dev/null` sentinel as its name: only
   * emptiness of the new path is tested, not the sentinel.
   */
  lemma DeletedFileDisplayName(f: DiffFile)
    requires !f.isRenamed && f.newPath == DevNull
    ensures DisplayName(f) == DevNull
  {
  }

  /** The name depends on `isRenamed`, `oldPath` and `newPath` only. */
  lemma DisplayNameIgnoresContent(f: DiffFile, g: DiffFile)
    requires f.isRenamed == g.isRenamed && f.oldPath == g.oldPath && f.newPath == g.newPath
    ensures DisplayName(f) == DisplayName(g)
  {
  }
}
