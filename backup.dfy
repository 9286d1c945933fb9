/** The backup file (src/taipy/core/_backup/_backup.py): a text file,
    named by the environment variable `TAIPY_BACKUP_FILE_PATH`, listing one
    file path per line.  Appending adds a line; removing deletes only the
    first full line equal to the path, so that data nodes sharing a file
    keep their other lines. */
module Backup {
  import opened Common

  /** `s.startswith(p)`. */
  predicate StartsWith(s: string, p: string)
  {
    |p| <= |s| && s[..|p|] == p
  }

  /** `pat` occurs in `s` at position `k`. */
  predicate OccursAt(s: string, pat: string, k: int)
  {
    0 <= k && k + |pat| <= |s| && s[k..k + |pat|] == pat
  }

  /** `s.replace(pat, rep, 1)` for a non-empty `pat`: the leftmost
      occurrence of `pat` is replaced, and nothing else changes. */
  function ReplaceFirst(s: string, pat: string, rep: string): (r: string)
    requires |pat| > 0
    ensures r == s || |r| + |pat| == |s| + |rep|
    decreases |s|
  {
    if StartsWith(s, pat) then rep + s[|pat|..]
    else if s == [] then []
    else [s[0]] + ReplaceFirst(s[1..], pat, rep)
  }

  /** Occurrences in the tail of `s` are those of `s` one place later. */
  lemma OccursInTail(s: string, pat: string, j: int)
    requires |s| > 0 && j >= 0
    ensures OccursAt(s[1..], pat, j) <==> OccursAt(s, pat, j + 1)
  {
    if 0 <= j && j + |pat| <= |s| - 1 {
      assert s[1..][j..j + |pat|] == s[j + 1..j + 1 + |pat|];
    }
  }

  /** The replacement happens at the leftmost occurrence. */
  lemma {:induction false} ReplaceFirstAt(s: string, pat: string, rep: string, k: nat)
    requires |pat| > 0 && OccursAt(s, pat, k)
    requires forall j :: 0 <= j < k ==> !OccursAt(s, pat, j)
    ensures ReplaceFirst(s, pat, rep) == s[..k] + rep + s[k + |pat|..]
    decreases k
  {
    if k == 0 {
      assert StartsWith(s, pat);
    } else {
      assert !OccursAt(s, pat, 0);
      assert !StartsWith(s, pat);
      var tail := s[1..];
      OccursInTail(s, pat, k - 1);
      forall j | 0 <= j < k - 1
        ensures !OccursAt(tail, pat, j)
      {
        OccursInTail(s, pat, j);
      }
      ReplaceFirstAt(tail, pat, rep, k - 1);
      assert ReplaceFirst(s, pat, rep) == [s[0]] + ReplaceFirst(tail, pat, rep);
      ConsSplit(s, k, |pat|, rep);
    }
  }

  lemma ConsSplit(s: string, k: nat, n: nat, rep: string)
    requires 1 <= k && k + n <= |s|
    ensures [s[0]] + (s[1..][..k - 1] + rep + s[1..][k - 1 + n..]) == s[..k] + rep + s[k + n..]
  {
    assert [s[0]] + s[1..][..k - 1] == s[..k];
    assert s[1..][k - 1 + n..] == s[k + n..];
  }

  /** Without an occurrence the text is left as it is. */
  lemma {:induction false} ReplaceFirstAbsent(s: string, pat: string, rep: string)
    requires |pat| > 0
    requires forall j :: 0 <= j <= |s| ==> !OccursAt(s, pat, j)
    ensures ReplaceFirst(s, pat, rep) == s
    decreases |s|
  {
    assert !OccursAt(s, pat, 0);
    if s != [] {
      forall j | 0 <= j <= |s[1..]|
        ensures !OccursAt(s[1..], pat, j)
      {
        OccursInTail(s, pat, j);
      }
      ReplaceFirstAbsent(s[1..], pat, rep);
    }
  }

  /** The content rewrite of `remove_from_backup_file`: drop `path + "\n"`
      from the front, or else collapse the first `"\n" + path + "\n"` to
      `"\n"`.  Either nothing changes or exactly one line's worth of
      text, `path + "\n"`, disappears. */
  function RemovedLine(content: string, path: string): (r: string)
    ensures r == content || |r| + |path| + 1 == |content|
  {
    var line := path + "\n";
    if StartsWith(content, line) then ReplaceFirst(content, line, "")
    else ReplaceFirst(content, "\n" + line, "\n")
  }

  predicate NoNewline(s: string)
  {
    '\n' !in s
  }

  predicate AllLines(lines: seq<string>)
  {
    forall i :: 0 <= i < |lines| ==> NoNewline(lines[i])
  }

  /** The text of a file holding `lines`, each ended by a newline. */
  function Join(lines: seq<string>): string
  {
    if lines == [] then "" else lines[0] + "\n" + Join(lines[1..])
  }

  /** Appending a line to the text appends it to the lines. */
  lemma {:induction false} JoinAppend(lines: seq<string>, p: string)
    ensures Join(lines + [p]) == Join(lines) + p + "\n"
  {
    if lines != [] {
      assert (lines + [p])[1..] == lines[1..] + [p];
      JoinAppend(lines[1..], p);
    }
  }

  /** The text of a line followed by more lines. */
  lemma JoinCons(l: string, rest: seq<string>)
    ensures Join([l] + rest) == l + ("\n" + Join(rest))
  {
    assert ([l] + rest)[1..] == rest;
  }

  /** A text cannot start with a pattern whose first character differs. */
  lemma NotStartsWithOtherChar(s: string, pat: string)
    requires |s| > 0 && |pat| > 0 && s[0] != pat[0]
    ensures !StartsWith(s, pat)
  {
    if |pat| <= |s| {
      assert s[..|pat|][0] == s[0];
    }
  }

  /** A pattern that starts with a newline cannot occur inside a text
      without one, so the leftmost occurrence lies after it. */
  lemma {:induction false} ReplaceFirstSkipsLine(l: string, x: string, pat: string, rep: string)
    requires NoNewline(l) && |pat| > 0 && pat[0] == '\n'
    ensures ReplaceFirst(l + x, pat, rep) == l + ReplaceFirst(x, pat, rep)
    decreases |l|
  {
    if l == [] {
      assert l + x == x;
    } else {
      var s := l + x;
      assert l[0] in l;
      assert s[0] == l[0] != pat[0];
      NotStartsWithOtherChar(s, pat);
      assert ReplaceFirst(s, pat, rep) == [s[0]] + ReplaceFirst(s[1..], pat, rep);
      assert s[1..] == l[1..] + x;
      ReplaceFirstSkipsLine(l[1..], x, pat, rep);
      assert [l[0]] + (l[1..] + ReplaceFirst(x, pat, rep)) == l + ReplaceFirst(x, pat, rep);
    }
  }

  /** Two newline-free lines that start a text the same way are equal. */
  lemma SameLine(p: string, l: string, rest: string)
    requires NoNewline(p) && NoNewline(l)
    requires StartsWith(l + "\n" + rest, p + "\n")
    ensures p == l
  {
    var s := l + "\n" + rest;
    var q := p + "\n";
    assert forall i :: 0 <= i < |q| ==> s[i] == q[i];
    assert forall i :: 0 <= i < |l| ==> s[i] == l[i] && l[i] in l;
    assert forall i :: 0 <= i < |p| ==> q[i] == p[i] && p[i] in p;
    assert s[|l|] == '\n' && q[|p|] == '\n';
    assert |p| == |l|;
    assert p == q[..|p|] && l == s[..|l|];
  }

  /** At the start of a line, collapsing `"\n" + p + "\n"` to `"\n"`
      removes the first line equal to `p` and keeps the others. */
  lemma {:induction false} CollapseAtLineStart(rest: seq<string>, p: string)
    requires AllLines(rest) && NoNewline(p)
    ensures ReplaceFirst("\n" + Join(rest), "\n" + (p + "\n"), "\n") == "\n" + Join(RemoveFirst(rest, p))
    decreases |rest|
  {
    var pat := "\n" + (p + "\n");
    var x := "\n" + Join(rest);
    if rest == [] {
      assert !StartsWith(x, pat);
      assert x[1..] == [];
    } else {
      JoinCons(rest[0], rest[1..]);
      assert rest == [rest[0]] + rest[1..];
      var tail := "\n" + Join(rest[1..]);
      assert x == "\n" + (rest[0] + tail);
      if rest[0] == p {
        assert x == pat + Join(rest[1..]);
        assert x[..|pat|] == pat;
        assert x[|pat|..] == Join(rest[1..]);
      } else {
        assert !StartsWith(x, pat) by {
          if StartsWith(x, pat) {
            assert x[1..] == rest[0] + "\n" + Join(rest[1..]);
            assert x[1..][..|p| + 1] == x[1..|pat|] == pat[1..] == p + "\n";
            SameLine(p, rest[0], Join(rest[1..]));
          }
        }
        assert x[1..] == rest[0] + tail;
        assert NoNewline(rest[0]) by { assert rest[0] == rest[0]; }
        ReplaceFirstSkipsLine(rest[0], tail, pat, "\n");
        assert AllLines(rest[1..]) by {
          forall i | 0 <= i < |rest[1..]| ensures NoNewline(rest[1..][i]) {
            assert rest[1..][i] == rest[i + 1];
          }
        }
        CollapseAtLineStart(rest[1..], p);
        JoinCons(rest[0], RemoveFirst(rest[1..], p));
      }
    }
  }

  /** The rewrite removes exactly the first full line equal to `path` and
      keeps every other line, in order. */
  lemma RemovedLineOfLines(lines: seq<string>, path: string)
    requires AllLines(lines) && NoNewline(path)
    ensures RemovedLine(Join(lines), path) == Join(RemoveFirst(lines, path))
  {
    var content := Join(lines);
    var line := path + "\n";
    if lines == [] {
      assert !StartsWith(content, line);
      assert !StartsWith(content, "\n" + line);
    } else {
      JoinCons(lines[0], lines[1..]);
      assert lines == [lines[0]] + lines[1..];
      if lines[0] == path {
        assert content == line + Join(lines[1..]);
        assert content[..|line|] == line;
        assert content[|line|..] == Join(lines[1..]);
      } else {
        if StartsWith(content, line) {
          SameLine(path, lines[0], Join(lines[1..]));
        }
        assert NoNewline(lines[0]);
        ReplaceFirstSkipsLine(lines[0], "\n" + Join(lines[1..]), "\n" + line, "\n");
        assert AllLines(lines[1..]) by {
          forall i | 0 <= i < |lines[1..]| ensures NoNewline(lines[1..][i]) {
            assert lines[1..][i] == lines[i + 1];
          }
        }
        CollapseAtLineStart(lines[1..], path);
        JoinCons(lines[0], RemoveFirst(lines[1..], path));
      }
    }
  }

  /** A path held by no line leaves the text unchanged. */
  lemma RemovedLineAbsent(lines: seq<string>, path: string)
    requires AllLines(lines) && NoNewline(path) && path !in lines
    ensures RemovedLine(Join(lines), path) == Join(lines)
  {
    RemovedLineOfLines(lines, path);
  }

  /** The backup file and the environment it is found through. */
  class BackupFile {
    /** `os.getenv("TAIPY_BACKUP_FILE_PATH")`. */
    const envPath: Option<string>
    /** The file's text; `None` while the file does not exist. */
    var content: Option<string>

    constructor (envPath: Option<string>, content: Option<string>)
      ensures this.envPath == envPath && this.content == content
    {
      this.envPath := envPath;
      this.content := content;
    }

    /** A backup file is in use only when the variable is set and not empty. */
    predicate Configured()
    {
      Truthy(envPath)
    }

    /** `append_to_backup_file`: open in append mode (creating the file)
        and write `new_file_path + "\n"`. */
    method Append(newPath: string)
      modifies this
      ensures Configured() ==> content == Some(
        (if old(content).Some? then old(content).value else "") + newPath + "\n")
      ensures !Configured() ==> content == old(content)
    {
      if Configured() {
        var text := if content.Some? then content.value else "";
        content := Some(text + newPath + "\n");
      }
    }

    /** `remove_from_backup_file`: rewrite the file without the first full
        line equal to the path; a missing file (the swallowed open error)
        or an unset variable changes nothing. */
    method Remove(path: string)
      modifies this
      ensures Configured() && old(content).Some? ==> content == Some(RemovedLine(old(content).value, path))
      ensures !(Configured() && old(content).Some?) ==> content == old(content)
    {
      if Configured() && content.Some? {
        var oldBackup := content.value;
        var newBackup := RemovedLine(oldBackup, path);
        if newBackup != oldBackup {
          content := Some(newBackup);
        }
      }
    }

    /** `replace_in_backup_file`: remove the old path, then append the new one. */
    method Replace(oldPath: string, newPath: string)
      modifies this
      ensures Configured() ==> content == Some(
        (if old(content).Some? then RemovedLine(old(content).value, oldPath) else "") + newPath + "\n")
      ensures !Configured() ==> content == old(content)
    {
      Remove(oldPath);
      Append(newPath);
    }

    /** On a file of lines, a replace leaves the lines without the first
        occurrence of the old path and with the new path last. */
    method ReplaceLine(oldPath: string, newPath: string, ghost lines: seq<string>)
      requires Configured() && content == Some(Join(lines))
      requires AllLines(lines) && NoNewline(oldPath)
      modifies this
      ensures content == Some(Join(RemoveFirst(lines, oldPath) + [newPath]))
    {
      Replace(oldPath, newPath);
      RemovedLineOfLines(lines, oldPath);
      JoinAppend(RemoveFirst(lines, oldPath), newPath);
    }
  }
}
