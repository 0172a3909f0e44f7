/** Joining the texts of several uploaded FASTA files into one submission. */
module Upload {

  /** The total number of characters in the files. */
  function TotalLength(files: seq<string>): nat {
    if |files| == 0 then 0 else TotalLength(files[..|files| - 1]) + |files[|files| - 1]|
  }

  /** Each file's text followed by a newline, so that the last record of one
      file cannot run into the first header of the next. */
  function Joined(files: seq<string>): (content: string)
    ensures |files| > 0 ==> |content| > 0 && content[|content| - 1] == '\n'
  {
    if |files| == 0 then ""
    else Joined(files[..|files| - 1]) + files[|files| - 1] + "\n"
  }

  /** The joined text is as long as the files together plus one newline each. */
  lemma {:induction false} JoinedLength(files: seq<string>)
    ensures |Joined(files)| == TotalLength(files) + |files|
  {
    if |files| > 0 {
      JoinedLength(files[..|files| - 1]);
    }
  }

  /** Joining distributes over concatenation of the file lists. */
  lemma {:induction false} JoinedAppend(a: seq<string>, b: seq<string>)
    ensures Joined(a + b) == Joined(a) + Joined(b)
    decreases |b|
  {
    if |b| == 0 {
      assert a + b == a;
    } else {
      var n := |b| - 1;
      assert (a + b)[..|a + b| - 1] == a + b[..n];
      assert (a + b)[|a + b| - 1] == b[n];
      JoinedAppend(a, b[..n]);
      assert Joined(a + b) == Joined(a + b[..n]) + b[n] + "\n";
      assert Joined(b) == Joined(b[..n]) + b[n] + "\n";
    }
  }

  /** Where file k starts in the joined text. */
  function Offset(files: seq<string>, k: nat): nat
    requires k <= |files|
  {
    |Joined(files[..k])|
  }

  /** A sequence is its prefix, the element at k and its suffix. */
  lemma SplitAt<T>(s: seq<T>, k: nat)
    requires k < |s|
    ensures s == s[..k] + ([s[k]] + s[k + 1..])
  {
  }

  /** A single file is joined to its text and a newline. */
  lemma JoinedOne(file: string)
    ensures Joined([file]) == file + "\n"
  {
    assert [file][..0] == [];
    assert "" + file == file;
  }

  /** In a text made of p, then q and a newline, then t, the text q starts
      right after p and the newline follows it. */
  lemma Middle(whole: string, p: string, q: string, t: string)
    requires whole == p + ((q + "\n") + t)
    ensures |p| + |q| < |whole|
    ensures whole[|p|..|p| + |q|] == q
    ensures whole[|p| + |q|] == '\n'
  {
  }

  /** File k occupies the joined text from its offset on, and is followed by
      a newline. */
  lemma FileInJoined(files: seq<string>, k: nat)
    requires k < |files|
    ensures Offset(files, k) + |files[k]| < |Joined(files)|
    ensures Joined(files)[Offset(files, k)..Offset(files, k) + |files[k]|] == files[k]
    ensures Joined(files)[Offset(files, k) + |files[k]|] == '\n'
  {
    var before, after := files[..k], files[k + 1..];
    SplitAt(files, k);
    JoinedAppend(before, [files[k]] + after);
    JoinedAppend([files[k]], after);
    JoinedOne(files[k]);
    assert Offset(files, k) == |Joined(before)|;
    Middle(Joined(files), Joined(before), files[k], Joined(after));
  }

  /** The upload branch: `fasta_content += text + "\n"` for each file in turn. */
  method JoinUploads(files: seq<string>) returns (fastaContent: string)
    ensures fastaContent == Joined(files)
  {
    fastaContent := "";
    for i := 0 to |files|
      invariant fastaContent == Joined(files[..i])
    {
      var fileContent := files[i] + "\n";
      assert files[..i + 1][..i] == files[..i];
      fastaContent := fastaContent + fileContent;
    }
    assert files[..|files|] == files;
  }
}
