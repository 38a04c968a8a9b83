/** Add-on references as the user types them: a registry id, or "author/title".

    `InstallAddon` routes on `strings.Contains(asset, "/")`, and `installByAuthor`
    takes elements 0 and 1 of `strings.Split(asset, "/")`; anything after a second
    slash is dropped. */
module Reference {

  /** Position of the first '/', or |s| when there is none. */
  function SlashIndex(s: string): (i: nat)
    ensures i <= |s|
    ensures forall k :: 0 <= k < i ==> s[k] != '/'
    ensures i < |s| ==> s[i] == '/'
  {
    if |s| == 0 || s[0] == '/' then 0 else 1 + SlashIndex(s[1..])
  }

  /** `strings.Join(parts, "/")`. */
  function Join(parts: seq<string>): string
  {
    if |parts| == 0 then ""
    else if |parts| == 1 then parts[0]
    else parts[0] + "/" + Join(parts[1..])
  }

  /** `strings.Split(s, "/")`: the pieces between the slashes, never none. */
  function Split(s: string): (parts: seq<string>)
    ensures |parts| >= 1
    ensures forall k :: 0 <= k < |parts| ==> '/' !in parts[k]
    ensures |parts| == 1 <==> '/' !in s
    ensures Join(parts) == s
    decreases |s|
  {
    var i := SlashIndex(s);
    if i == |s| then [s]
    else
      var head, rest := s[..i], Split(s[i + 1..]);
      var parts := [head] + rest;
      assert parts[1..] == rest;
      assert s == head + "/" + s[i + 1..];
      assert forall k :: 1 <= k < |parts| ==> parts[k] == rest[k - 1];
      assert '/' !in head by {
        forall k | 0 <= k < |head| ensures head[k] != '/' { assert head[k] == s[k]; }
      }
      parts
  }

  /** Splitting undoes joining slash-free pieces. */
  lemma {:induction false} SplitJoin(parts: seq<string>)
    requires |parts| >= 1
    requires forall k :: 0 <= k < |parts| ==> '/' !in parts[k]
    ensures Split(Join(parts)) == parts
    decreases |parts|
  {
    if |parts| > 1 {
      var s := Join(parts);
      assert s == parts[0] + "/" + Join(parts[1..]);
      var i := |parts[0]|;
      assert s[..i] == parts[0];
      assert s[i] == '/';
      SlashIndexAt(s, i);
      assert s[i + 1..] == Join(parts[1..]);
      SplitJoin(parts[1..]);
    }
  }

  /** The first slash sits at `i` when `s[i]` is a slash and none comes before. */
  lemma SlashIndexAt(s: string, i: nat)
    requires i < |s| && s[i] == '/' && '/' !in s[..i]
    ensures SlashIndex(s) == i
  {
  }

  datatype Ref = ById(id: string) | ByAuthor(author: string, title: string)

  /** `s` reads `author`, a slash, `title`, and then either nothing or a slash
      followed by anything; neither part contains a slash. */
  predicate SplitsAs(s: string, author: string, title: string)
  {
    var n := |author|;
    var m := n + 1 + |title|;
    && m <= |s|
    && s[..n] == author
    && s[n] == '/'
    && s[n + 1..m] == title
    && (m == |s| || s[m] == '/')
    && '/' !in author
    && '/' !in title
  }

  /** The routing of `InstallAddon` and the split of `installByAuthor`. */
  function Classify(s: string): (r: Ref)
    ensures r.ById? <==> '/' !in s
    ensures r.ById? ==> r.id == s
    ensures r.ByAuthor? ==> SplitsAs(s, r.author, r.title)
  {
    if '/' in s then
      var parts := Split(s);
      SplitPrefix(s);
      ByAuthor(parts[0], parts[1])
    else
      ById(s)
  }

  /** The first two pieces of a string with a slash, read off the string. */
  lemma SplitPrefix(s: string)
    requires '/' in s
    ensures |Split(s)| >= 2 && SplitsAs(s, Split(s)[0], Split(s)[1])
  {
    var i := SlashIndex(s);
    var t := s[i + 1..];
    var j := SlashIndex(t);
    assert Split(s) == [s[..i]] + Split(t);
    SlashPieces(s, i, j);
  }

  /** The text up to the first slash and the text from there to the next slash
      (or the end) are the author and title of the reference. */
  lemma SlashPieces(s: string, i: nat, j: nat)
    requires i < |s| && s[i] == '/' && '/' !in s[..i]
    requires j == SlashIndex(s[i + 1..])
    ensures SplitsAs(s, s[..i], s[i + 1..][..j])
  {
    var t := s[i + 1..];
    var m := i + 1 + j;
    assert s[i + 1..m] == t[..j];
    if m < |s| {
      assert s[m] == t[j];
    }
    assert '/' !in t[..j];
  }

  /** A reference splits in only one way, so `Classify` is the only reading. */
  lemma SplitsAsUnique(s: string, a1: string, t1: string, a2: string, t2: string)
    requires SplitsAs(s, a1, t1) && SplitsAs(s, a2, t2)
    ensures a1 == a2 && t1 == t2
  {
    SlashIndexAt(s, |a1|);
    SlashIndexAt(s, |a2|);
    var n := |a1|;
    var u := s[n + 1..];
    if |t1| < |u| {
      assert u[|t1|] == '/' && '/' !in u[..|t1|];
      SlashIndexAt(u, |t1|);
    }
    if |t2| < |u| {
      assert u[|t2|] == '/' && '/' !in u[..|t2|];
      SlashIndexAt(u, |t2|);
    }
    assert u[..|t1|] == t1 && u[..|t2|] == t2;
  }

  /** Anything after a second slash is dropped: "author/title/more" is read as
      "author/title". */
  lemma ExtraSegmentsIgnored(author: string, title: string, more: string)
    requires '/' !in author && '/' !in title
    ensures Classify(author + "/" + title + "/" + more) == ByAuthor(author, title)
    ensures Classify(author + "/" + title) == ByAuthor(author, title)
  {
    var s := author + "/" + title + "/" + more;
    var n := |author|;
    assert s[..n] == author && s[n] == '/' && s[n + 1..n + 1 + |title|] == title;
    assert s[n + 1 + |title|] == '/';
    assert SplitsAs(s, author, title);
    assert s[n] in s;
    SplitsAsUnique(s, author, title, Classify(s).author, Classify(s).title);
    var s2 := author + "/" + title;
    assert s2[..n] == author && s2[n] == '/' && s2[n + 1..] == title;
    assert SplitsAs(s2, author, title);
    assert s2[n] in s2;
    SplitsAsUnique(s2, author, title, Classify(s2).author, Classify(s2).title);
  }
}
