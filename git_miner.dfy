/**
 * The reader of `git log --pretty=fuller` output: the lines of the log are
 * read block by block into commits, newest first. A block is the `commit`
 * line, an optional `Merge:` line, the author, author date, committer and
 * commit date lines, a blank line, the title, and the body lines up to the
 * next blank line. Dates are kept as the text the log shows.
 */
module GitMiner {
  import opened Common

  datatype Commit = Commit(
    sha: string, author: string, authorDate: string, committer: string, commitDate: string,
    title: string, body: string, isMerge: bool)

  /** Why reading the log stops with an exception. */
  datatype LogError =
    | Mismatch(message: string)   // a line without the expected prefix
    | NotBlank(line: string)      // the line after the commit date is not empty
    | UnexpectedEnd               // the lines end inside a block

  const UnexpectedEndMessage: string := "Unexpected end of commit log"

  const CommitPattern: string := "^commit ( )*"
  const AuthorPattern: string := "^Author: ( )*"
  const AuthorDatePattern: string := "^AuthorDate: ( )*"
  const CommitterPattern: string := "^Commit: ( )*"
  const CommitDatePattern: string := "^CommitDate: ( )*"
  const SpacesPattern: string := "^( )*"

  function MismatchMessage(txt: string, pattern: string): string {
    "String '" + txt + "' doesn't contain the expected substr: '" + pattern + "'"
  }

  /**
   * `_remove_substr` for a pattern `^<literal>( )*`: the line without the
   * literal and the spaces after it; a line not starting with the literal raises.
   */
  function RemoveSubstr(txt: string, literal: string, pattern: string): Result<string> {
    if !StartsWith(txt, literal) then Err(MismatchMessage(txt, pattern))
    else Ok(TrimLeadingChar(txt[|literal|..], ' '))
  }

  /**
   * The line is refused with the mismatch message exactly when it does not
   * start with the literal; otherwise the value is what follows the literal
   * and the spaces after it.
   */
  lemma RemoveSubstrMeaning(txt: string, literal: string, pattern: string)
    ensures RemoveSubstr(txt, literal, pattern).Ok? <==> StartsWith(txt, literal)
    ensures RemoveSubstr(txt, literal, pattern).Err? ==> RemoveSubstr(txt, literal, pattern).error == MismatchMessage(txt, pattern)
    ensures RemoveSubstr(txt, literal, pattern).Ok? ==> LiteralSpacesValue(txt, literal, RemoveSubstr(txt, literal, pattern).value)
  {
    if StartsWith(txt, literal) {
      var after := txt[|literal|..];
      var v := TrimLeadingChar(after, ' ');
      TrimLeadingCharMeaning(after, ' ');
      assert txt[|txt| - |v|..] == after[|after| - |v|..];
      var gap := txt[|literal|..|txt| - |v|];
      forall i | 0 <= i < |gap| ensures gap[i] == ' ' {
        assert gap[i] == after[i];
      }
    }
  }

  predicate AllSpaces(s: string) {
    forall i :: 0 <= i < |s| ==> s[i] == ' '
  }

  /** The line is the literal, then spaces, then a value that does not start with a space. */
  predicate LiteralSpacesValue(txt: string, literal: string, v: string) {
    && |literal| + |v| <= |txt|
    && StartsWith(txt, literal)
    && EndsWith(txt, v)
    && AllSpaces(txt[|literal|..|txt| - |v|])
    && (v == [] || v[0] != ' ')
  }

  /** A line made of the literal and a value not starting with a space gives the value back. */
  lemma RemoveSubstrOfLine(literal: string, v: string, pattern: string)
    requires v == [] || v[0] != ' '
    ensures RemoveSubstr(literal + v, literal, pattern) == Ok(v)
  {
    var txt := literal + v;
    assert txt[..|literal|] == literal && txt[|literal|..] == v;
  }

  /** `_remove_substr(line, '^( )*')`: the line without its leading spaces. */
  function Unindent(line: string): string {
    TrimLeadingChar(line, ' ')
  }

  /** Removing the leading spaces of a line never raises, and gives its unindented text. */
  lemma UnindentNeverFails(line: string)
    ensures RemoveSubstr(line, "", SpacesPattern) == Ok(Unindent(line))
  {
    assert line[..0] == "" && line[0..] == line;
  }

  /** The lines before the body: everything up to and including the title. */
  datatype Header = Header(
    sha: string, isMerge: bool, author: string, authorDate: string, committer: string, commitDate: string, title: string)

  /** A value read from the front of the lines, with the lines left, or the error that stopped it. */
  datatype Step<T> = Next(value: T, rest: seq<string>) | Fail(error: LogError)

  /** The lines left are a suffix of the lines read from. */
  predicate Consumes<T>(lines: seq<string>, r: Step<T>) {
    r.Next? ==> |r.rest| < |lines| && r.rest == lines[|lines| - |r.rest|..]
  }

  /**
   * The header of the block at the front of the lines: `commit <sha>`, an
   * optional line starting with `Merge: `, the four author and committer
   * lines, a blank line and the title.
   */
  function ReadHeader(lines: seq<string>): (r: Step<Header>)
    requires lines != []
    ensures Consumes(lines, r)
  {
    var sha := RemoveSubstr(lines[0], "commit ", CommitPattern);
    if sha.Err? then Fail(Mismatch(sha.error))
    else if |lines| < 2 then Fail(UnexpectedEnd)
    else
      var isMerge := StartsWith(lines[1], "Merge: ");
      var at := if isMerge then 2 else 1;
      if |lines| <= at then Fail(UnexpectedEnd)
      else
        var author := RemoveSubstr(lines[at], "Author: ", AuthorPattern);
        if author.Err? then Fail(Mismatch(author.error))
        else if |lines| <= at + 1 then Fail(UnexpectedEnd)
        else
          var authorDate := RemoveSubstr(lines[at + 1], "AuthorDate: ", AuthorDatePattern);
          if authorDate.Err? then Fail(Mismatch(authorDate.error))
          else if |lines| <= at + 2 then Fail(UnexpectedEnd)
          else
            var committer := RemoveSubstr(lines[at + 2], "Commit: ", CommitterPattern);
            if committer.Err? then Fail(Mismatch(committer.error))
            else if |lines| <= at + 3 then Fail(UnexpectedEnd)
            else
              var commitDate := RemoveSubstr(lines[at + 3], "CommitDate: ", CommitDatePattern);
              if commitDate.Err? then Fail(Mismatch(commitDate.error))
              else if |lines| <= at + 4 then Fail(UnexpectedEnd)
              else if lines[at + 4] != "" then Fail(NotBlank(lines[at + 4]))
              else if |lines| <= at + 5 then Fail(UnexpectedEnd)
              else
                var h := Header(sha.value, isMerge, author.value, authorDate.value, committer.value, commitDate.value,
                  Unindent(lines[at + 5]));
                assert |lines| - |lines[at + 6..]| == at + 6;
                Next(h, lines[at + 6..])
  }

  /** The body: each line up to the next blank one, unindented and followed by a newline. */
  function ReadBody(lines: seq<string>): Step<string> {
    if lines == [] then Fail(UnexpectedEnd)
    else if lines[0] == "" then Next("", lines[1..])
    else
      var rest := ReadBody(lines[1..]);
      if rest.Fail? then rest
      else Next(Unindent(lines[0]) + "\n" + rest.value, rest.rest)
  }

  /** The body leaves a proper suffix of the lines, and its only error is the unexpected end. */
  lemma {:induction false} ReadBodyConsumes(lines: seq<string>)
    ensures Consumes(lines, ReadBody(lines))
    ensures ReadBody(lines).Fail? ==> ReadBody(lines).error == UnexpectedEnd
  {
    if lines != [] && lines[0] != "" {
      ReadBodyConsumes(lines[1..]);
      var rest := ReadBody(lines[1..]);
      if rest.Next? {
        assert lines[1..][|lines[1..]| - |rest.rest|..] == lines[|lines| - |rest.rest|..];
      }
    }
  }

  /** One block into a commit. */
  function ReadCommit(lines: seq<string>): (r: Step<Commit>)
    requires lines != []
    ensures Consumes(lines, r)
  {
    var header := ReadHeader(lines);
    if header.Fail? then Fail(header.error)
    else
      var body := ReadBody(header.rest);
      if body.Fail? then Fail(body.error)
      else
        var h := header.value;
        ReadBodyConsumes(header.rest);
        SuffixOfSuffix(lines, header.rest, body.rest);
        Next(Commit(h.sha, h.author, h.authorDate, h.committer, h.commitDate, h.title, body.value, h.isMerge), body.rest)
  }

  lemma SuffixOfSuffix(a: seq<string>, b: seq<string>, c: seq<string>)
    requires |b| <= |a| && b == a[|a| - |b|..]
    requires |c| <= |b| && c == b[|b| - |c|..]
    ensures c == a[|a| - |c|..]
  {
  }

  /** The commits read, in log order, and the error that stopped the reading, if any. */
  datatype Log = Log(commits: seq<Commit>, failure: Option<LogError>)

  /** The whole log: block after block until the lines run out between two blocks. */
  function ParseLog(lines: seq<string>): (r: Log)
    decreases |lines|
  {
    if lines == [] then Log([], None)
    else
      var c := ReadCommit(lines);
      if c.Fail? then Log([], Some(c.error))
      else
        var rest := ParseLog(c.rest);
        Log([c.value] + rest.commits, rest.failure)
  }

  function Prepend(commits: seq<Commit>, log: Log): Log {
    Log(commits + log.commits, log.failure)
  }

  function PrefixBody(text: string, step: Step<string>): Step<string> {
    if step.Fail? then step else Next(text + step.value, step.rest)
  }

  /**
   * `traverse_commits_back`: the loop that pulls the log's lines one by one,
   * reads each block's header and then its body line by line, and yields
   * the commits in log order.
   */
  method TraverseCommitsBack(lines: seq<string>) returns (commits: seq<Commit>, failure: Option<LogError>)
    ensures Log(commits, failure) == ParseLog(lines)
  {
    commits, failure := [], None;
    var i := 0;
    while i < |lines|
      invariant 0 <= i <= |lines|
      invariant ParseLog(lines) == Prepend(commits, ParseLog(lines[i..]))
      decreases |lines| - i
    {
      var c, next, error := ReadBlock(lines, i);
      if error.Some? {
        failure := error;
        assert commits + [] == commits;
        return;
      }
      PrependTwice(commits, c, ParseLog(lines[next..]));
      commits := commits + [c];
      i := next;
    }
    assert lines[|lines|..] == [];
    assert commits + [] == commits;
  }

  /**
   * One turn of the loop: the header of the block at line `i`, then its
   * body; either the commit and the line after the block, or the error.
   */
  method ReadBlock(lines: seq<string>, i: nat) returns (c: Commit, next: nat, error: Option<LogError>)
    requires i < |lines|
    ensures error.Some? ==> ParseLog(lines[i..]) == Log([], error)
    ensures error.None? ==> i < next <= |lines| && ParseLog(lines[i..]) == Prepend([c], ParseLog(lines[next..]))
  {
    var header := ReadHeader(lines[i..]);
    if header.Fail? {
      c, next, error := Commit("", "", "", "", "", "", "", false), i, Some(header.error);
      assert ParseLog(lines[i..]) == Log([], error) by {
        HeaderFailStep(lines[i..]);
      }
      return;
    }
    var start := |lines| - |header.rest|;
    assert lines[i..][|lines[i..]| - |header.rest|..] == lines[start..];
    assert ParseLog(lines[i..]) == LogAfterHeader(header.value, ReadBody(lines[start..])) by {
      HeaderReadStep(lines[i..], header.value, lines[start..]);
    }
    c, next, error := ReadBlockBody(lines, header.value, start);
  }

  /** The rest of a block whose header ended just before `start`: its body, up to the blank line that closes it. */
  method ReadBlockBody(lines: seq<string>, h: Header, start: nat) returns (c: Commit, next: nat, error: Option<LogError>)
    requires start <= |lines|
    ensures error.Some? ==> LogAfterHeader(h, ReadBody(lines[start..])) == Log([], error)
    ensures error.None? ==> start < next <= |lines| && LogAfterHeader(h, ReadBody(lines[start..])) == Prepend([c], ParseLog(lines[next..]))
  {
    var body, rest := ReadBodyLines(lines[start..]);
    ghost var step := ReadBody(lines[start..]);
    if rest == [] {
      c, next, error := Commit("", "", "", "", "", "", "", false), start, Some(UnexpectedEnd);
      assert step == Fail(UnexpectedEnd);
    } else {
      ghost var after := lines[start..];
      assert |rest| <= |after| && rest[1..] == after[|after| - |rest[1..]|..] by {
        ReadBodyConsumes(after);
      }
      c := CommitOf(h, body);
      next, error := |lines| - |rest| + 1, None;
      assert after[|after| - |rest[1..]|..] == lines[next..];
    }
  }

  /**
   * The inner loop: the lines are taken one at a time from the front of
   * `rest` and added to the body, up to a blank line; `rest` is left at the
   * blank line, or empty when the lines run out first.
   */
  method ReadBodyLines(lines: seq<string>) returns (body: string, rest: seq<string>)
    ensures rest == [] ==> ReadBody(lines) == Fail(UnexpectedEnd)
    ensures rest != [] ==> ReadBody(lines) == Next(body, rest[1..])
  {
    body, rest := "", lines;
    ghost var whole := ReadBody(lines);
    EmptyPrefix(whole);
    while rest != [] && rest[0] != ""
      invariant whole == PrefixBody(body, ReadBody(rest))
    {
      BodyLineStep(rest, body);
      body := body + Unindent(rest[0]) + "\n";
      rest := rest[1..];
    }
    BodyEnd(rest, body);
  }

  /** Once the lines run out or a blank line comes, the body read so far is the whole body. */
  lemma BodyEnd(rest: seq<string>, body: string)
    requires rest == [] || rest[0] == ""
    ensures rest == [] ==> PrefixBody(body, ReadBody(rest)) == Fail(UnexpectedEnd)
    ensures rest != [] ==> PrefixBody(body, ReadBody(rest)) == Next(body, rest[1..])
  {
    if rest != [] {
      BodyEndStep(rest);
      assert body + "" == body;
    }
  }

  lemma EmptyPrefix(step: Step<string>)
    ensures PrefixBody("", step) == step
  {
    if step.Next? {
      assert "" + step.value == step.value;
    }
  }

  /** A non-blank line is one more line of the body. */
  lemma BodyLineStep(rest: seq<string>, body: string)
    requires rest != [] && rest[0] != ""
    ensures PrefixBody(body, ReadBody(rest)) == PrefixBody(body + Unindent(rest[0]) + "\n", ReadBody(rest[1..]))
  {
    var tail := ReadBody(rest[1..]);
    if tail.Next? {
      assert body + (Unindent(rest[0]) + "\n" + tail.value) == body + Unindent(rest[0]) + "\n" + tail.value;
    }
  }

  /** A blank line ends the body. */
  lemma BodyEndStep(rest: seq<string>)
    requires rest != [] && rest[0] == ""
    ensures ReadBody(rest) == Next("", rest[1..])
  {
  }

  /** A header that does not read ends the log with its error. */
  lemma HeaderFailStep(lines: seq<string>)
    requires lines != [] && ReadHeader(lines).Fail?
    ensures ParseLog(lines) == Log([], Some(ReadHeader(lines).error))
  {
  }

  /** The commit a block's header and body make. */
  function CommitOf(h: Header, body: string): Commit {
    Commit(h.sha, h.author, h.authorDate, h.committer, h.commitDate, h.title, body, h.isMerge)
  }

  /** What the log reads as once a block's header is read, from how its body reads. */
  function LogAfterHeader(h: Header, body: Step<string>): Log {
    if body.Fail? then Log([], Some(body.error)) else Prepend([CommitOf(h, body.value)], ParseLog(body.rest))
  }

  /**
   * Once the header reads, the body decides: a body that runs to the end of
   * the log ends it with its error, and a body read whole puts the block's
   * commit in front of the log read from the lines after it.
   */
  lemma HeaderReadStep(lines: seq<string>, h: Header, afterHeader: seq<string>)
    requires lines != [] && ReadHeader(lines) == Next(h, afterHeader)
    ensures ParseLog(lines) == LogAfterHeader(h, ReadBody(afterHeader))
    ensures ReadBody(afterHeader).Fail? ==> ParseLog(lines) == Log([], Some(UnexpectedEnd))
  {
    ReadBodyConsumes(afterHeader);
  }

  lemma PrependTwice(commits: seq<Commit>, c: Commit, log: Log)
    ensures Prepend(commits, Prepend([c], log)) == Prepend(commits + [c], log)
  {
    assert commits + ([c] + log.commits) == (commits + [c]) + log.commits;
  }

  /*
   * The partner of the reader: the lines `git log --pretty=fuller` prints for
   * a sequence of commits, and the proof that the reader gives them back.
   */

  /** A commit as the log prints it; `parents` is the text of the `Merge:` line, if any. */
  datatype Entry = Entry(
    sha: string, parents: Option<string>, author: string, authorDate: string, committer: string, commitDate: string,
    title: string, body: seq<string>)

  predicate NoLeadingSpace(v: string) {
    v == [] || v[0] != ' '
  }

  /** The values the log prints carry no leading spaces of their own. */
  predicate WellFormedEntry(e: Entry) {
    && NoLeadingSpace(e.sha) && NoLeadingSpace(e.author) && NoLeadingSpace(e.authorDate)
    && NoLeadingSpace(e.committer) && NoLeadingSpace(e.commitDate) && NoLeadingSpace(e.title)
    && forall i :: 0 <= i < |e.body| ==> NoLeadingSpace(e.body[i])
  }

  function Indented(body: seq<string>): (r: seq<string>)
    ensures |r| == |body|
  {
    if body == [] then [] else ["    " + body[0]] + Indented(body[1..])
  }

  function HeaderLines(e: Entry): seq<string> {
    ["commit " + e.sha] + (if e.parents.Some? then ["Merge: " + e.parents.value] else []) +
    ["Author: " + e.author, "AuthorDate: " + e.authorDate, "Commit: " + e.committer, "CommitDate: " + e.commitDate,
     "", "    " + e.title]
  }

  /** The block of one commit: the header lines, the indented body and the blank line that ends it. */
  function EntryLines(e: Entry): seq<string> {
    HeaderLines(e) + Indented(e.body) + [""]
  }

  function RenderLog(entries: seq<Entry>): seq<string> {
    if entries == [] then [] else EntryLines(entries[0]) + RenderLog(entries[1..])
  }

  /** The body text: each line followed by a newline. */
  function BodyText(body: seq<string>): string {
    if body == [] then "" else body[0] + "\n" + BodyText(body[1..])
  }

  function EntryCommit(e: Entry): Commit {
    Commit(e.sha, e.author, e.authorDate, e.committer, e.commitDate, e.title, BodyText(e.body), e.parents.Some?)
  }

  function EntryCommits(entries: seq<Entry>): seq<Commit> {
    if entries == [] then [] else [EntryCommit(entries[0])] + EntryCommits(entries[1..])
  }

  /** Leading spaces are taken off a value that has none of its own. */
  lemma {:induction false} TrimPadding(pad: string, v: string)
    requires AllSpaces(pad) && NoLeadingSpace(v)
    ensures TrimLeadingChar(pad + v, ' ') == v
    decreases |pad|
  {
    if pad == [] {
      assert pad + v == v;
    } else {
      assert (pad + v)[0] == ' ' && (pad + v)[1..] == pad[1..] + v;
      TrimPadding(pad[1..], v);
    }
  }

  /** A line indented by the four spaces of the log unindents to its value. */
  lemma UnindentPadded(v: string)
    requires NoLeadingSpace(v)
    ensures Unindent("    " + v) == v
  {
    var pad := "    ";
    assert AllSpaces(pad) by {
      assert pad[0] == ' ' && pad[1] == ' ' && pad[2] == ' ' && pad[3] == ' ';
    }
    TrimPadding(pad, v);
  }

  /** The reader reads the log of well-formed commits back, newest first, in order, without error. */
  lemma {:induction false} ParseRenderedLog(entries: seq<Entry>)
    requires forall i :: 0 <= i < |entries| ==> WellFormedEntry(entries[i])
    ensures ParseLog(RenderLog(entries)) == Log(EntryCommits(entries), None)
  {
    if entries != [] {
      var e := entries[0];
      var rest := RenderLog(entries[1..]);
      assert RenderLog(entries) == EntryLines(e) + rest;
      ParseRenderedLog(entries[1..]);
      assert ParseLog(EntryLines(e) + rest) == Prepend([EntryCommit(e)], ParseLog(rest)) by {
        ParseAfterBlock(e, rest);
      }
    }
  }

  lemma ReadRenderedBlock(e: Entry, rest: seq<string>)
    requires WellFormedEntry(e)
    ensures ReadCommit(EntryLines(e) + rest) == Next(EntryCommit(e), rest)
  {
    var lines := EntryLines(e) + rest;
    var afterHeader := Indented(e.body) + [""] + rest;
    assert lines == HeaderLines(e) + afterHeader;
    ReadRenderedHeader(e, afterHeader);
    ReadRenderedBody(e.body, rest);
  }

  lemma {:induction false} ReadRenderedBody(body: seq<string>, rest: seq<string>)
    requires forall i :: 0 <= i < |body| ==> NoLeadingSpace(body[i])
    ensures ReadBody(Indented(body) + [""] + rest) == Next(BodyText(body), rest)
  {
    var lines := Indented(body) + [""] + rest;
    if body == [] {
      assert lines[0] == "" && lines[1..] == rest;
    } else {
      assert lines[0] == "    " + body[0];
      assert lines[1..] == Indented(body[1..]) + [""] + rest;
      UnindentPadded(body[0]);
      ReadRenderedBody(body[1..], rest);
    }
  }

  lemma ReadRenderedHeader(e: Entry, rest: seq<string>)
    requires WellFormedEntry(e)
    ensures ReadHeader(HeaderLines(e) + rest) ==
      Next(Header(e.sha, e.parents.Some?, e.author, e.authorDate, e.committer, e.commitDate, e.title), rest)
  {
    var lines := HeaderLines(e) + rest;
    var at := if e.parents.Some? then 2 else 1;
    var h := Header(e.sha, e.parents.Some?, e.author, e.authorDate, e.committer, e.commitDate, e.title);
    assert |lines| >= at + 6 && lines[at + 6..] == rest && lines[at + 4] == "" by {
      RenderedHeaderLines(e, rest);
    }
    assert RemoveSubstr(lines[0], "commit ", CommitPattern) == Ok(h.sha) by {
      RenderedHeaderLines(e, rest);
      FieldLine(lines, 0, "commit ", e.sha, CommitPattern);
    }
    assert StartsWith(lines[1], "Merge: ") == h.isMerge by {
      RenderedHeaderLines(e, rest);
      MergeLine(e, lines);
    }
    assert RemoveSubstr(lines[at], "Author: ", AuthorPattern) == Ok(h.author) by {
      RenderedHeaderLines(e, rest);
      FieldLine(lines, at, "Author: ", e.author, AuthorPattern);
    }
    assert RemoveSubstr(lines[at + 1], "AuthorDate: ", AuthorDatePattern) == Ok(h.authorDate) by {
      RenderedHeaderLines(e, rest);
      FieldLine(lines, at + 1, "AuthorDate: ", e.authorDate, AuthorDatePattern);
    }
    assert RemoveSubstr(lines[at + 2], "Commit: ", CommitterPattern) == Ok(h.committer) by {
      RenderedHeaderLines(e, rest);
      FieldLine(lines, at + 2, "Commit: ", e.committer, CommitterPattern);
    }
    assert RemoveSubstr(lines[at + 3], "CommitDate: ", CommitDatePattern) == Ok(h.commitDate) by {
      RenderedHeaderLines(e, rest);
      FieldLine(lines, at + 3, "CommitDate: ", e.commitDate, CommitDatePattern);
    }
    assert Unindent(lines[at + 5]) == h.title by {
      RenderedHeaderLines(e, rest);
      UnindentPadded(e.title);
    }
    ReadHeaderOfFields(lines, at, h);
  }

  lemma FieldLine(lines: seq<string>, k: nat, literal: string, v: string, pattern: string)
    requires k < |lines| && lines[k] == literal + v && NoLeadingSpace(v)
    ensures RemoveSubstr(lines[k], literal, pattern) == Ok(v)
  {
    RemoveSubstrOfLine(literal, v, pattern);
  }

  /** The second line is a `Merge:` line exactly when the commit has parents to show. */
  lemma MergeLine(e: Entry, lines: seq<string>)
    requires |lines| > 2 && lines[1] == if e.parents.Some? then "Merge: " + e.parents.value else "Author: " + e.author
    ensures StartsWith(lines[1], "Merge: ") == e.parents.Some?
  {
    if e.parents.Some? {
      assert lines[1][..7] == "Merge: ";
    } else {
      assert lines[1][0] == 'A';
    }
  }

  /** The header read from lines whose every field reads as the header's. */
  lemma ReadHeaderOfFields(lines: seq<string>, at: nat, h: Header)
    requires at == if h.isMerge then 2 else 1
    requires |lines| >= at + 6
    requires RemoveSubstr(lines[0], "commit ", CommitPattern) == Ok(h.sha)
    requires StartsWith(lines[1], "Merge: ") == h.isMerge
    requires RemoveSubstr(lines[at], "Author: ", AuthorPattern) == Ok(h.author)
    requires RemoveSubstr(lines[at + 1], "AuthorDate: ", AuthorDatePattern) == Ok(h.authorDate)
    requires RemoveSubstr(lines[at + 2], "Commit: ", CommitterPattern) == Ok(h.committer)
    requires RemoveSubstr(lines[at + 3], "CommitDate: ", CommitDatePattern) == Ok(h.commitDate)
    requires lines[at + 4] == "" && Unindent(lines[at + 5]) == h.title
    ensures ReadHeader(lines) == Next(h, lines[at + 6..])
  {
  }

  /** Indented lines are never blank, so a body that the log cuts off runs out. */
  lemma {:induction false} ReadCutBody(body: seq<string>)
    ensures ReadBody(Indented(body)) == Fail(UnexpectedEnd)
  {
    if body != [] {
      var lines := Indented(body);
      assert lines[0] == "    " + body[0] && lines[1..] == Indented(body[1..]);
      assert lines[0][0] == ' ';
      ReadCutBody(body[1..]);
    }
  }

  /**
   * A log cut off inside the body of its last block: the commits before it
   * are read, in order, and then the reading stops with the unexpected end.
   */
  lemma {:induction false} ParseCutLog(entries: seq<Entry>, last: Entry)
    requires forall i :: 0 <= i < |entries| ==> WellFormedEntry(entries[i])
    requires WellFormedEntry(last)
    ensures ParseLog(RenderLog(entries) + (HeaderLines(last) + Indented(last.body))) ==
      Log(EntryCommits(entries), Some(UnexpectedEnd))
  {
    var cut := HeaderLines(last) + Indented(last.body);
    if entries == [] {
      assert RenderLog(entries) + cut == cut;
      ParseCutBlock(last);
    } else {
      var e := entries[0];
      var tail := RenderLog(entries[1..]) + cut;
      assert RenderLog(entries) + cut == EntryLines(e) + tail by {
        AppendAssoc(EntryLines(e), RenderLog(entries[1..]), cut);
      }
      ParseCutLog(entries[1..], last);
      assert ParseLog(EntryLines(e) + tail) == Prepend([EntryCommit(e)], ParseLog(tail)) by {
        ParseAfterBlock(e, tail);
      }
      assert EntryCommits(entries) == [EntryCommit(e)] + EntryCommits(entries[1..]);
    }
  }

  /** The last block alone, cut off inside its body. */
  lemma ParseCutBlock(last: Entry)
    requires WellFormedEntry(last)
    ensures ParseLog(HeaderLines(last) + Indented(last.body)) == Log([], Some(UnexpectedEnd))
  {
    ReadRenderedHeader(last, Indented(last.body));
    ReadCutBody(last.body);
  }

  /** A rendered block in front of any lines adds its commit in front of what those lines read as. */
  lemma ParseAfterBlock(e: Entry, tail: seq<string>)
    requires WellFormedEntry(e)
    ensures ParseLog(EntryLines(e) + tail) == Prepend([EntryCommit(e)], ParseLog(tail))
  {
    ReadRenderedBlock(e, tail);
  }

  /** Where each header line sits in the block. */
  lemma RenderedHeaderLines(e: Entry, rest: seq<string>)
    ensures var lines := HeaderLines(e) + rest; var at := if e.parents.Some? then 2 else 1;
      && |lines| == at + 6 + |rest|
      && lines[0] == "commit " + e.sha
      && (e.parents.Some? ==> lines[1] == "Merge: " + e.parents.value)
      && lines[at] == "Author: " + e.author
      && lines[at + 1] == "AuthorDate: " + e.authorDate
      && lines[at + 2] == "Commit: " + e.committer
      && lines[at + 3] == "CommitDate: " + e.commitDate
      && lines[at + 4] == ""
      && lines[at + 5] == "    " + e.title
      && lines[at + 6..] == rest
  {
  }
}
