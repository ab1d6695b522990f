/**
 The phishing blocklist: the set of bad links held by `PhishingProtect`, how a list
 file is turned into that set, and the check run on every incoming message.
 */
module Blocklist {
  import opened Text

  /** One item handed out by the file's line reader: the line's text, or a read error
      (for instance a line that is not valid UTF-8), which the loader skips. */
  datatype LineRead = Line(text: string) | Unreadable

  /** Opening the list file: the file's lines in order, or a failure to open it. */
  datatype ListFile = Unopenable | Opened(lines: seq<LineRead>)

  /** What one line adds to the list: its trimmed, lowercased text, unless the line is
      unreadable or blank after trimming. */
  function EntryOf(l: LineRead): set<string> {
    match l
    case Unreadable => {}
    case Line(t) => if Trim(t) == [] then {} else {ToLower(Trim(t))}
  }

  /** Line `l` contributes entry `e` to the list. */
  predicate Contributes(l: LineRead, e: string) {
    l.Line? && Trim(l.text) != [] && ToLower(Trim(l.text)) == e
  }

  /** The set built from a file's lines, one line after another; each line adds at most
      one entry. */
  function ParseList(lines: seq<LineRead>): (r: set<string>)
    ensures |r| <= |lines|
  {
    if lines == [] then {}
    else ParseList(lines[..|lines| - 1]) + EntryOf(lines[|lines| - 1])
  }

  /** Reading one more line adds that line's entry. */
  lemma ParseListSnoc(lines: seq<LineRead>, i: nat)
    requires i < |lines|
    ensures ParseList(lines[..i + 1]) == ParseList(lines[..i]) + EntryOf(lines[i])
  {
    assert lines[..i + 1][..i] == lines[..i];
  }

  /** The list held after loading `file` over the list `links`. */
  function Loaded(links: set<string>, file: ListFile): (r: set<string>)
    ensures file.Unopenable? ==> r == links
    ensures file.Opened? ==> |r| <= |file.lines|
    ensures file.Opened? ==> forall e :: e in r ==> e != [] && Trim(e) == e && ToLower(e) == e
  {
    match file
    case Unopenable => links
    case Opened(lines) => ParsedEntriesNormalized(lines); ParseList(lines)
  }

  /** The entry a line adds is exactly the one it contributes. */
  lemma EntryOfContributes(l: LineRead, e: string)
    ensures e in EntryOf(l) <==> Contributes(l, e)
  {
  }

  /** Each line's entry ends up in the parsed list. */
  lemma {:induction false} ContributedIsParsed(lines: seq<LineRead>, i: nat, e: string)
    requires i < |lines| && Contributes(lines[i], e)
    ensures e in ParseList(lines)
  {
    var init, last := lines[..|lines| - 1], lines[|lines| - 1];
    assert ParseList(lines) == ParseList(init) + EntryOf(last);
    if i < |init| {
      assert init[i] == lines[i];
      ContributedIsParsed(init, i, e);
    } else {
      EntryOfContributes(last, e);
    }
  }

  /** Each parsed entry comes from some line of the file. */
  lemma {:induction false} ParsedHasSource(lines: seq<LineRead>, e: string) returns (i: nat)
    requires e in ParseList(lines)
    ensures i < |lines| && Contributes(lines[i], e)
  {
    var init, last := lines[..|lines| - 1], lines[|lines| - 1];
    assert ParseList(lines) == ParseList(init) + EntryOf(last);
    if e in ParseList(init) {
      i := ParsedHasSource(init, e);
      assert init[i] == lines[i];
    } else {
      EntryOfContributes(last, e);
      i := |lines| - 1;
    }
  }

  /** An entry is in the parsed list exactly when some readable line trims and
      lowercases to it. */
  lemma ParseListMembership(lines: seq<LineRead>, e: string)
    ensures e in ParseList(lines) <==> exists i :: 0 <= i < |lines| && Contributes(lines[i], e)
  {
    if e in ParseList(lines) {
      var i := ParsedHasSource(lines, e);
    }
    if exists i :: 0 <= i < |lines| && Contributes(lines[i], e) {
      var i :| 0 <= i < |lines| && Contributes(lines[i], e);
      ContributedIsParsed(lines, i, e);
    }
  }

  /** Every stored entry is non-empty and equal to its own trimmed, lowercased form. */
  lemma {:induction false} ParsedEntriesNormalized(lines: seq<LineRead>)
    ensures forall e :: e in ParseList(lines) ==> e != [] && Trim(e) == e && ToLower(e) == e
  {
    if lines != [] {
      var init, last := lines[..|lines| - 1], lines[|lines| - 1];
      ParsedEntriesNormalized(init);
      if last.Line? {
        NormalizedIsFixed(last.text);
      }
      assert ParseList(lines) == ParseList(init) + EntryOf(last);
    }
  }

  /** Two runs of lines read one after the other load the union of their lists. */
  lemma {:induction false} ParseListConcat(a: seq<LineRead>, b: seq<LineRead>)
    ensures ParseList(a + b) == ParseList(a) + ParseList(b)
    decreases |b|
  {
    if b == [] {
      assert a + b == a;
    } else {
      var init := b[..|b| - 1];
      assert (a + b)[..|a + b| - 1] == a + init;
      ParseListConcat(a, init);
    }
  }

  /** Rearranging the blocks of a file does not change the list it loads. */
  lemma ParseListOrderIrrelevant(a: seq<LineRead>, b: seq<LineRead>)
    ensures ParseList(a + b) == ParseList(b + a)
  {
    ParseListConcat(a, b);
    ParseListConcat(b, a);
  }

  /** A successful load does not depend on the list held before it, so loading the same
      file twice gives the list of loading it once. */
  lemma LoadReplacesWholesale(old1: set<string>, old2: set<string>, lines: seq<LineRead>)
    ensures Loaded(old1, Opened(lines)) == Loaded(old2, Opened(lines))
    ensures Loaded(Loaded(old1, Opened(lines)), Opened(lines)) == Loaded(old1, Opened(lines))
  {
  }

  /** Whether some word of `words`, lowercased, is a listed link; the words are
      looked at front to back, as `Iterator::any` does. */
  function AnyListed(words: seq<string>, links: set<string>): (r: bool)
    ensures r <==> exists i :: 0 <= i < |words| && ToLower(words[i]) in links
  {
    if words == [] then false
    else ToLower(words[0]) in links || AnyListed(words[1..], links)
  }

  /** The check on a message's content: flagged iff some whitespace-separated word,
      lowercased and otherwise untouched, is a member of the list. */
  function IsPhishing(content: string, links: set<string>): (r: bool)
    ensures r <==> exists i :: 0 <= i < |Words(content)| && ToLower(Words(content)[i]) in links
    ensures links == {} ==> !r
  {
    AnyListed(Words(content), links)
  }

  /** A one-word message is flagged exactly when its lowercase form is listed. */
  lemma SingleWordFlagged(w: string, links: set<string>)
    requires w != [] && NoWhitespace(w)
    ensures IsPhishing(w, links) <==> ToLower(w) in links
  {
    SingleWord(w);
  }

  /** Scanning two runs of words one after the other finds a listed word iff one of
      the runs has one. */
  lemma {:induction false} AnyListedConcat(wa: seq<string>, wb: seq<string>, links: set<string>)
    ensures AnyListed(wa + wb, links) == (AnyListed(wa, links) || AnyListed(wb, links))
  {
    if wa != [] {
      assert (wa + wb)[1..] == wa[1..] + wb;
      AnyListedConcat(wa[1..], wb, links);
    } else {
      assert wa + wb == wb;
    }
  }

  /** Two parts joined by whitespace are flagged iff one of them is. */
  lemma FlaggedIffSomePart(a: string, c: char, b: string, links: set<string>)
    requires IsWhitespace(c)
    ensures IsPhishing(a + [c] + b, links) <==> IsPhishing(a, links) || IsPhishing(b, links)
  {
    WordsAroundSeparator(a, c, b);
    AnyListedConcat(Words(a), Words(b), links);
  }

  /** Letter case in the message never matters. */
  lemma CaseInsensitive(content: string, links: set<string>)
    ensures IsPhishing(ToLower(content), links) == IsPhishing(content, links)
  {
    WordsOfLower(content);
    var ws, ls := Words(content), Words(ToLower(content));
    forall i | 0 <= i < |ws|
      ensures ToLower(ls[i]) == ToLower(ws[i])
    {
      ToLowerIdempotent(ws[i]);
    }
  }

  /** No scheme, path, punctuation or anything else around a link is stripped: a word
      that strictly contains a listed entry (`http://a.com/path` or `a.com,` against
      `a.com`) does not match it. */
  lemma EmbeddedEntryNotMatched(prefix: string, entry: string, suffix: string)
    requires prefix + suffix != []
    requires NoWhitespace(prefix + entry + suffix)
    ensures !IsPhishing(prefix + entry + suffix, {entry})
  {
    SingleWordFlagged(prefix + entry + suffix, {entry});
  }

  /** A trimmed, non-empty, lowercase line contributes exactly itself. */
  lemma CleanLineEntry(a: string)
    requires a != [] && IsTrimmed(a) && forall k :: 0 <= k < |a| ==> !('A' <= a[k] <= 'Z')
    ensures EntryOf(Line(a)) == {a}
  {
    TrimOfTrimmed(a);
    ToLowerOfLowercase(a);
  }

  /** A file of two readable lines that are already trimmed, non-empty and lowercase
      yields exactly those two lines as entries. */
  lemma TwoCleanLines(a: string, b: string)
    requires a != [] && IsTrimmed(a) && forall k :: 0 <= k < |a| ==> !('A' <= a[k] <= 'Z')
    requires b != [] && IsTrimmed(b) && forall k :: 0 <= k < |b| ==> !('A' <= b[k] <= 'Z')
    ensures ParseList([Line(a), Line(b)]) == {a, b}
  {
    var lines := [Line(a), Line(b)];
    assert lines[..1][..0] == [] && lines[..1] == [Line(a)];
    CleanLineEntry(a);
    CleanLineEntry(b);
    assert ParseList(lines[..1]) == ParseList([]) + EntryOf(Line(a)) == {a};
    assert ParseList(lines) == ParseList(lines[..1]) + EntryOf(Line(b));
  }

  /** The words after the first are looked at only when the first is not listed. */
  lemma AnyListedCons(w: string, ws: seq<string>, links: set<string>)
    ensures AnyListed([w] + ws, links) == (ToLower(w) in links || AnyListed(ws, links))
  {
    assert ([w] + ws)[1..] == ws;
  }

  lemma AnyListedThree(a: string, b: string, c: string, links: set<string>)
    ensures AnyListed([a, b, c], links)
              == (ToLower(a) in links || ToLower(b) in links || ToLower(c) in links)
  {
    AnyListedCons(a, [b, c], links);
    AnyListedCons(b, [c], links);
    AnyListedCons(c, [], links);
    assert [a, b, c] == [a] + [b, c] && [b, c] == [b] + [c] && [c] == [c] + [];
  }

  /** Three non-blank words separated by single spaces are split back into those words. */
  lemma ThreeWordsSplit(a: string, b: string, c: string)
    requires a != [] && NoWhitespace(a) && b != [] && NoWhitespace(b) && c != [] && NoWhitespace(c)
    ensures Words(a + " " + b + " " + c) == [a, b, c]
  {
    assert Words(b + [' '] + c) == [b, c] by {
      WordsAroundSeparator(b, ' ', c);
      SingleWord(b);
      SingleWord(c);
    }
    assert a + " " + b + " " + c == a + [' '] + (b + [' '] + c);
    WordsAroundSeparator(a, ' ', b + [' '] + c);
    SingleWord(a);
  }

  /** A message of three words is flagged iff one of them, lowercased, is listed. */
  lemma ThreeWords(a: string, b: string, c: string, links: set<string>)
    requires a != [] && NoWhitespace(a) && b != [] && NoWhitespace(b) && c != [] && NoWhitespace(c)
    ensures IsPhishing(a + " " + b + " " + c, links)
              == (ToLower(a) in links || ToLower(b) in links || ToLower(c) in links)
  {
    AnyListedThree(a, b, c, links);
    ThreeWordsSplit(a, b, c);
  }

  /** The bot's runtime copy of the list: the `PhishingProtect` object shared by the
      message handler and the daily refresh. */
  class PhishingProtect {
    var links: set<string>

    /** As created at start-up, before the first load. */
    constructor ()
      ensures links == {}
    {
      links := {};
    }

    /** Loads the list file: each readable line is trimmed and, when not blank, stored
        lowercased in a fresh set, which then replaces the old list wholesale. When the
        file cannot be opened, the old list stays. */
    method Load(file: ListFile)
      modifies this
      ensures links == Loaded(old(links), file)
      ensures file.Opened? ==> links == ParseList(file.lines)
      ensures file.Unopenable? ==> links == old(links)
    {
      match file
      case Unopenable =>
      case Opened(lines) =>
        var newSet: set<string> := {};
        for i := 0 to |lines|
          invariant newSet == ParseList(lines[..i])
        {
          ParseListSnoc(lines, i);
          match lines[i]
          case Unreadable =>
          case Line(text) =>
            var trimmed := Trim(text);
            if trimmed != [] {
              newSet := newSet + {ToLower(trimmed)};
            }
        }
        assert lines[..|lines|] == lines;
        links := newSet;
    }
  }
}
