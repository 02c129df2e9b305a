/**
 * The dependency pinning script `bin/update_stride_db_dependencies.py`: every
 * line of the requirements file that points at the stride-db repository is
 * re-pointed at one commit, every other line is kept, and the docker image
 * tag names the same commit.  Reading and writing the files and the
 * `git add` call are not part of this model.
 */
module Requirements {

  const GitHub := "https://github.com/"

  /** The stride-db repository on GitHub. */
  const StrideDbRepo := GitHub + "hasadna/open-bus-stride-db/"

  /** A line requiring the stride-db requirements file at some revision. */
  const RawPrefix := "-r " + StrideDbRepo + "raw/"

  /** A line installing a stride-db source archive. */
  const ArchivePrefix := StrideDbRepo + "archive/"

  const RawSuffix := "/requirements.txt\n"
  const ArchiveSuffix := ".zip\n"

  /** The image repository the tag file names. */
  const ImagePrefix := "docker.pkg.github.com/hasadna/open-bus-stride-db/open-bus-stride-db:"

  /** One line after the rewrite: the two kinds of stride-db line are re-pointed at `commit`. */
  function RewriteLine(line: string, commit: string): (r: string)
    ensures RawPrefix <= line ==> RawPrefix <= r && r[|RawPrefix|..] == commit + RawSuffix
    ensures !(RawPrefix <= line) && ArchivePrefix <= line ==>
      ArchivePrefix <= r && r[|ArchivePrefix|..] == commit + ArchiveSuffix
    ensures !(RawPrefix <= line) && !(ArchivePrefix <= line) ==> r == line
  {
    if RawPrefix <= line then RawPrefix + commit + RawSuffix
    else if ArchivePrefix <= line then ArchivePrefix + commit + ArchiveSuffix
    else line
  }

  /** No line has both prefixes, so the order of the two tests does not matter. */
  lemma PrefixesExclusive(line: string)
    ensures !(RawPrefix <= line && ArchivePrefix <= line)
  {
    assert RawPrefix[0] == '-' && ArchivePrefix[0] == 'h';
  }

  /** A rewritten line keeps the kind it had, so rewriting it again changes nothing. */
  lemma RewriteLineIdempotent(line: string, commit: string)
    ensures RewriteLine(RewriteLine(line, commit), commit) == RewriteLine(line, commit)
  {
    var r := RewriteLine(line, commit);
    if !(RawPrefix <= line) && ArchivePrefix <= line {
      PrefixesExclusive(r);
    }
  }

  /** The commit can be read back from a rewritten stride-db line. */
  lemma CommitReadsBack(line: string, commit: string)
    requires RawPrefix <= line || ArchivePrefix <= line
    ensures var r := RewriteLine(line, commit);
      if RawPrefix <= line then r[|RawPrefix|..|r| - |RawSuffix|] == commit
      else r[|ArchivePrefix|..|r| - |ArchiveSuffix|] == commit
  {
  }

  /** The line list after the rewrite, line by line. */
  function Rewritten(lines: seq<string>, commit: string): (r: seq<string>)
    ensures |r| == |lines|
    ensures forall i :: 0 <= i < |lines| ==> r[i] == RewriteLine(lines[i], commit)
  {
    seq(|lines|, i requires 0 <= i < |lines| => RewriteLine(lines[i], commit))
  }

  /** Rewriting the line list twice with the same commit gives the line list after one rewrite. */
  lemma RewrittenIdempotent(lines: seq<string>, commit: string)
    ensures Rewritten(Rewritten(lines, commit), commit) == Rewritten(lines, commit)
  {
    forall i | 0 <= i < |lines|
      ensures Rewritten(Rewritten(lines, commit), commit)[i] == Rewritten(lines, commit)[i]
    {
      RewriteLineIdempotent(lines[i], commit);
    }
  }

  /** The loop of `main`: the new lines, one per old line, in order. */
  method RewriteLines(lines: seq<string>, commit: string) returns (newLines: seq<string>)
    ensures |newLines| == |lines|
    ensures forall i :: 0 <= i < |lines| ==> newLines[i] == RewriteLine(lines[i], commit)
  {
    newLines := [];
    for k := 0 to |lines|
      invariant |newLines| == k
      invariant forall i :: 0 <= i < k ==> newLines[i] == RewriteLine(lines[i], commit)
    {
      var line := lines[k];
      if RawPrefix <= line {
        line := RawPrefix + commit + RawSuffix;
      } else if ArchivePrefix <= line {
        line := ArchivePrefix + commit + ArchiveSuffix;
      }
      newLines := newLines + [line];
    }
  }

  /** The content of the image tag file: the image repository, a colon and the commit. */
  function ImageTag(commit: string): (r: string)
    ensures ImagePrefix <= r && r[|ImagePrefix|..] == commit
  {
    ImagePrefix + commit
  }
}
