/// The in-place hostname label builder of bb_mdns (label rules of section 2.3.1 of
/// RFC 1035; a leading digit is allowed, as in section 2.1 of RFC 1123).
module Hostname {
  import opened Wrappers

  const WORK_SIZE: nat := 256
  const LABEL_MAX: nat := 63

  // --- what one sanitize pass produces ----------------------------------------------

  /// The characters of a C string: those before the first NUL.
  function CText(s: string): (r: string)
    ensures r <= s && (forall i :: 0 <= i < |r| ==> r[i] != '\0')
    ensures |r| < |s| ==> s[|r|] == '\0'
  {
    if s == [] || s[0] == '\0' then [] else [s[0]] + CText(s[1..])
  }

  /// A NULL pointer reads as the empty text.
  function Text(s: Option<string>): string {
    match s
    case None => ""
    case Some(t) => CText(t)
  }

  predicate LabelChar(c: char) {
    'a' <= c <= 'z' || '0' <= c <= '9' || c == '-'
  }

  const LOWER: string := "abcdefghijklmnopqrstuvwxyz"
  const UPPER: string := "ABCDEFGHIJKLMNOPQRSTUVWXYZ"

  /// Label characters stay, upper-case letters become their lower-case ones, and everything
  /// else becomes a hyphen.
  function MapChar(c: char): (r: char)
    ensures LabelChar(r) && (LabelChar(c) ==> r == c)
    ensures forall i :: 0 <= i < 26 && UPPER[i] == c ==> r == LOWER[i]
    ensures !LabelChar(c) && c !in UPPER ==> r == '-'
  {
    if 'a' <= c <= 'z' then c
    else if 'A' <= c <= 'Z' then (c as int + 32) as char
    else if '0' <= c <= '9' then c
    else '-'
  }

  function Mapped(s: string): (r: string)
    ensures |r| == |s| && forall i :: 0 <= i < |s| ==> r[i] == MapChar(s[i])
  {
    seq(|s|, i requires 0 <= i < |s| => MapChar(s[i]))
  }

  /// Every run of hyphens becomes one hyphen.
  function Collapsed(s: string): (r: string)
    ensures |r| <= |s| && (s != [] ==> r != [])
  {
    if s == [] then []
    else Pushed(Collapsed(s[..|s| - 1]), s[|s| - 1])
  }

  function Pushed(before: string, c: char): (r: string)
    ensures r != [] && |r| <= |before| + 1
  {
    if c == '-' && before != [] && before[|before| - 1] == '-' then before else before + [c]
  }

  function Taken(s: string, n: nat): string {
    if |s| <= n then s else s[..n]
  }

  function TrimmedLeft(s: string): (r: string)
    ensures |r| <= |s| && (r != [] ==> r[0] != '-')
  {
    if s != [] && s[0] == '-' then TrimmedLeft(s[1..]) else s
  }

  function TrimmedRight(s: string): (r: string)
    ensures r <= s && (r != [] ==> r[|r| - 1] != '-')
  {
    if s != [] && s[|s| - 1] == '-' then TrimmedRight(s[..|s| - 1]) else s
  }

  function Trimmed(s: string): (r: string)
    ensures |r| <= |s|
  {
    TrimmedRight(TrimmedLeft(s))
  }

  function Sanitized(text: string, size: nat): (r: string)
    requires 1 <= size
    ensures |r| < size
  {
    Trimmed(Taken(Collapsed(Mapped(text)), size - 1))
  }

  // --- sanitize_into ------------------------------------------------------------------

  lemma {:induction false} CollapsedGrows(s: string, n: nat)
    requires n <= |s|
    ensures Collapsed(s[..n]) <= Collapsed(s)
  {
    if n < |s| {
      CollapsedGrows(s[..|s| - 1], n);
      assert s[..|s| - 1][..n] == s[..n];
    } else {
      assert s[..n] == s;
    }
  }

  lemma CollapsedCut(s: string, p: nat, n: nat)
    requires p <= |s| && |Collapsed(s[..p])| <= n
    requires p == |s| || |Collapsed(s[..p])| == n
    ensures Taken(Collapsed(s), n) == Collapsed(s[..p])
  {
    CollapsedGrows(s, p);
    if p == |s| {
      assert s[..p] == s;
    }
  }

  lemma CollapsedStep(s: string, p: nat)
    requires p < |s|
    ensures Collapsed(s[..p + 1]) == Pushed(Collapsed(s[..p]), s[p])
  {
    assert s[..p + 1][..p] == s[..p];
  }

  lemma {:induction false} TrimmedLeftIs(s: string, start: nat)
    requires start <= |s| && (forall i :: 0 <= i < start ==> s[i] == '-')
    requires start < |s| ==> s[start] != '-'
    ensures TrimmedLeft(s) == s[start..]
  {
    if start > 0 {
      TrimmedLeftIs(s[1..], start - 1);
      assert s[1..][start - 1..] == s[start..];
    } else {
      assert s[0..] == s;
    }
  }

  lemma {:induction false} TrimmedRightIs(s: string, end: nat)
    requires end <= |s| && (forall i :: end <= i < |s| ==> s[i] == '-')
    requires end > 0 ==> s[end - 1] != '-'
    ensures TrimmedRight(s) == s[..end]
    decreases |s|
  {
    if end < |s| {
      TrimmedRightIs(s[..|s| - 1], end);
      assert s[..|s| - 1][..end] == s[..end];
    } else {
      assert s[..end] == s;
    }
  }

  method Push(work: array<char>, w: nat, c: char) returns (w': nat)
    requires w < work.Length
    modifies work
    ensures w' <= w + 1 && work[..w'] == Pushed(old(work[..w]), c)
  {
    w' := w;
    if !(c == '-' && w > 0 && work[w - 1] == '-') {
      work[w] := c;
      w' := w + 1;
    }
  }

  /// Pass 1: sanitize and collapse in one scan.
  method CollapseInto(text: string, work: array<char>) returns (w: nat)
    requires work.Length >= 1
    modifies work
    ensures w < work.Length && work[..w] == Taken(Collapsed(Mapped(text)), work.Length - 1)
  {
    w := 0;
    var p := 0;
    while p < |text| && w < work.Length - 1
      invariant 0 <= p <= |text| && w <= work.Length - 1
      invariant work[..w] == Collapsed(Mapped(text)[..p])
    {
      CollapsedStep(Mapped(text), p);
      w := Push(work, w, MapChar(text[p]));
      p := p + 1;
    }
    CollapsedCut(Mapped(text), p, work.Length - 1);
  }

  /// memcpy(dst + at, src, n)
  method CopyInto(src: array<char>, n: nat, dst: array<char>, at: nat)
    requires src != dst && n <= src.Length && at + n <= dst.Length
    modifies dst
    ensures dst[..at + n] == old(dst[..at]) + src[..n]
    ensures forall i :: at + n <= i < dst.Length ==> dst[i] == old(dst[i])
  {
    forall i | 0 <= i < n {
      dst[at + i] := src[i];
    }
  }

  /// memmove(work, work + start, n)
  method MoveDown(work: array<char>, start: nat, n: nat)
    requires start + n <= work.Length
    modifies work
    ensures work[..n] == old(work[start..start + n])
  {
    forall i | 0 <= i < n {
      work[i] := work[start + i];
    }
  }

  method SkipLeading(work: array<char>, w: nat) returns (start: nat)
    requires w <= work.Length
    ensures start <= w && TrimmedLeft(work[..w]) == work[start..w]
  {
    ghost var taken := work[..w];
    start := 0;
    while start < w && work[start] == '-'
      invariant 0 <= start <= w && forall i :: 0 <= i < start ==> taken[i] == '-'
    {
      start := start + 1;
    }
    TrimmedLeftIs(taken, start);
    assert taken[start..] == work[start..w];
  }

  method SkipTrailing(work: array<char>, start: nat, w: nat) returns (end: nat)
    requires start <= w <= work.Length
    ensures start <= end <= w && TrimmedRight(work[start..w]) == work[start..end]
  {
    ghost var taken := work[start..w];
    end := w;
    while end > start && work[end - 1] == '-'
      invariant start <= end <= w && forall i :: end - start <= i < w - start ==> taken[i] == '-'
    {
      end := end - 1;
    }
    TrimmedRightIs(taken, end - start);
    assert taken[..end - start] == work[start..end];
  }

  /// sanitize_into: sanitize, collapse and trim inside one buffer.
  method SanitizeInto(src: Option<string>, work: array<char>) returns (len: nat)
    requires work.Length >= 1
    modifies work
    ensures len < work.Length && work[..len] == Sanitized(Text(src), work.Length) && work[len] == '\0'
  {
    var w := CollapseInto(Text(src), work);
    ghost var taken := work[..w];
    work[w] := '\0';
    assert work[..w] == taken;
    var start := SkipLeading(work, w);
    var end := SkipTrailing(work, start, w);
    len := end - start;
    ghost var kept := work[start..end];
    assert kept == Trimmed(taken);
    if start > 0 && len > 0 {
      MoveDown(work, start, len);
    }
    assert work[..len] == kept;
    work[len] := '\0';
    assert work[..len] == kept;
  }

  // --- what a sanitized text is ---------------------------------------------------------

  predicate EndsInHyphen(s: string) {
    s != [] && s[|s| - 1] == '-'
  }

  predicate NoDoubledHyphen(s: string) {
    forall i :: 0 <= i < |s| - 1 ==> !(s[i] == '-' && s[i + 1] == '-')
  }

  predicate LabelChars(s: string) {
    forall i :: 0 <= i < |s| ==> LabelChar(s[i])
  }

  predicate Clean(s: string) {
    && LabelChars(s)
    && NoDoubledHyphen(s)
    && (s != [] ==> s[0] != '-' && s[|s| - 1] != '-')
  }

  lemma {:induction false} CollapsedIsTidy(s: string)
    requires LabelChars(s)
    ensures LabelChars(Collapsed(s)) && NoDoubledHyphen(Collapsed(s))
  {
    if s != [] {
      CollapsedIsTidy(s[..|s| - 1]);
    }
  }

  lemma {:induction false} TrimmedLeftIsSuffix(s: string) returns (k: nat)
    ensures k <= |s| && TrimmedLeft(s) == s[k..]
  {
    if s != [] && s[0] == '-' {
      var k' := TrimmedLeftIsSuffix(s[1..]);
      k := k' + 1;
      assert s[1..][k'..] == s[k..];
    } else {
      k := 0;
    }
  }

  lemma SanitizedIsClean(text: string, size: nat)
    requires 1 <= size
    ensures Clean(Sanitized(text, size)) && |Sanitized(text, size)| < size
  {
    CollapsedIsTidy(Mapped(text));
    var taken := Taken(Collapsed(Mapped(text)), size - 1);
    var k := TrimmedLeftIsSuffix(taken);
  }

  lemma {:induction false} CollapsedKeepsTidy(s: string)
    requires NoDoubledHyphen(s)
    ensures Collapsed(s) == s
  {
    if s != [] {
      var before, c := s[..|s| - 1], s[|s| - 1];
      ShorterIsTidy(s);
      CollapsedKeepsTidy(before);
      assert Collapsed(s) == Pushed(before, c) == before + [c] == s;
    }
  }

  lemma ShorterIsTidy(s: string)
    requires NoDoubledHyphen(s) && s != []
    ensures NoDoubledHyphen(s[..|s| - 1])
    ensures |s| > 1 ==> !(s[|s| - 2] == '-' && s[|s| - 1] == '-')
  {
    var before := s[..|s| - 1];
    forall i | 0 <= i < |before| - 1
      ensures !(before[i] == '-' && before[i + 1] == '-')
    {
      assert before[i] == s[i] && before[i + 1] == s[i + 1];
    }
    if |s| > 1 {
      var i := |s| - 2;
      assert s[i + 1] == s[|s| - 1];
    }
  }

  /// The texts sanitizing leaves alone are exactly the clean ones that fit; so
  /// sanitizing twice is sanitizing once.
  lemma CleanIffFixed(s: string, size: nat)
    requires 1 <= size
    ensures Sanitized(s, size) == s <==> Clean(s) && |s| < size
  {
    if Sanitized(s, size) == s {
      SanitizedIsClean(s, size);
    }
    if Clean(s) && |s| < size {
      assert Mapped(s) == s;
      CollapsedKeepsTidy(s);
    }
  }

  lemma SanitizingTwice(text: string, size: nat)
    requires 1 <= size
    ensures Sanitized(Sanitized(text, size), size) == Sanitized(text, size)
  {
    SanitizedIsClean(text, size);
    CleanIffFixed(Sanitized(text, size), size);
  }

  // --- the words of a text -----------------------------------------------------------------

  /// The text cut at every hyphen; the pieces may be empty.
  function Pieces(s: string): (r: seq<string>)
    ensures r != []
  {
    if s == [] then [""]
    else
      var r, c := Pieces(s[..|s| - 1]), s[|s| - 1];
      if c == '-' then r + [""] else r[..|r| - 1] + [r[|r| - 1] + [c]]
  }

  function NonEmpty(pieces: seq<string>): seq<string> {
    if pieces == [] then []
    else NonEmpty(pieces[..|pieces| - 1]) + if pieces[|pieces| - 1] == "" then [] else [pieces[|pieces| - 1]]
  }

  /// The words, with one hyphen between neighbours.
  function Hyphenated(words: seq<string>): string {
    if words == [] then ""
    else if |words| == 1 then words[0]
    else Hyphenated(words[..|words| - 1]) + "-" + words[|words| - 1]
  }

  /// The words of a text: its runs of letters and digits, in lower case.
  function Words(text: string): seq<string> {
    NonEmpty(Pieces(Mapped(text)))
  }

  lemma PiecesSnoc(s: string, c: char)
    ensures Pieces(s + [c]) == if c == '-' then Pieces(s) + [""]
                               else Pieces(s)[..|Pieces(s)| - 1] + [Pieces(s)[|Pieces(s)| - 1] + [c]]
  {
    assert (s + [c])[..|s|] == s;
  }

  lemma NonEmptySnoc(pieces: seq<string>, p: string)
    ensures NonEmpty(pieces + [p]) == NonEmpty(pieces) + if p == "" then [] else [p]
  {
    assert (pieces + [p])[..|pieces|] == pieces;
  }

  lemma HyphenatedSnoc(words: seq<string>, w: string)
    ensures Hyphenated(words + [w]) == if words == [] then w else Hyphenated(words) + "-" + w
  {
    assert (words + [w])[..|words|] == words;
  }

  /// The pieces before the last, and whether the last is empty.
  function Closed(s: string): seq<string> {
    NonEmpty(Pieces(s)[..|Pieces(s)| - 1])
  }

  function LastPiece(s: string): string {
    Pieces(s)[|Pieces(s)| - 1]
  }

  /// What is left of a text after collapsing and trimming on the left, told by its pieces.
  function Tidied(closed: seq<string>, last: string): string {
    if closed == [] then last else Hyphenated(closed) + "-" + last
  }

  lemma ClosedSnoc(s: string, c: char)
    ensures c == '-' ==> Closed(s + [c]) == Closed(s) + if LastPiece(s) == "" then [] else [LastPiece(s)]
    ensures c == '-' ==> LastPiece(s + [c]) == ""
    ensures c != '-' ==> Closed(s + [c]) == Closed(s) && LastPiece(s + [c]) == LastPiece(s) + [c]
  {
    PiecesSnoc(s, c);
    var ps := Pieces(s);
    if c == '-' {
      assert (ps + [""])[..|ps|] == ps;
      assert ps == ps[..|ps| - 1] + [ps[|ps| - 1]];
      NonEmptySnoc(ps[..|ps| - 1], ps[|ps| - 1]);
    } else {
      assert (ps[..|ps| - 1] + [ps[|ps| - 1] + [c]])[..|ps| - 1] == ps[..|ps| - 1];
    }
  }

  lemma {:induction false} TrimmedLeftSnoc(s: string, c: char)
    ensures TrimmedLeft(s + [c]) == if TrimmedLeft(s) == [] && c == '-' then [] else TrimmedLeft(s) + [c]
  {
    if s != [] && s[0] == '-' {
      TrimmedLeftSnoc(s[1..], c);
      assert (s + [c])[1..] == s[1..] + [c];
    } else if s == [] {
      assert [c][1..] == [];
      assert s + [c] == [c];
    }
  }

  lemma CollapsedSnoc(s: string, c: char)
    ensures Collapsed(s + [c]) == Pushed(Collapsed(s), c)
  {
    assert (s + [c])[..|s|] == s;
  }

  lemma {:induction false} TrimmedLeftEnds(s: string)
    ensures TrimmedLeft(s) != [] ==> s != [] && TrimmedLeft(s)[|TrimmedLeft(s)| - 1] == s[|s| - 1]
    ensures TrimmedLeft(s) == [] ==> forall i :: 0 <= i < |s| ==> s[i] == '-'
  {
    if s != [] && s[0] == '-' {
      TrimmedLeftEnds(s[1..]);
      forall i | 0 <= i < |s| && TrimmedLeft(s) == [] ensures s[i] == '-' {
        if i > 0 { assert s[i] == s[1..][i - 1]; }
      }
    }
  }

  /// Pushing a character behind a collapsed and left-trimmed text.
  lemma TrimmedPush(x: string, c: char)
    ensures var t := TrimmedLeft(x);
            TrimmedLeft(Pushed(x, c)) ==
              if c == '-' && (t == [] || t[|t| - 1] == '-') then t else t + [c]
  {
    TrimmedLeftSnoc(x, c);
    TrimmedLeftEnds(x);
    if c == '-' && x != [] && TrimmedLeft(x) == [] {
      assert x[|x| - 1] == '-';
    }
  }

  /// The last piece holds no hyphen.
  lemma {:induction false} LastPieceHyphenFree(s: string)
    ensures forall i :: 0 <= i < |LastPiece(s)| ==> LastPiece(s)[i] != '-'
  {
    if s != [] {
      var before, c := s[..|s| - 1], s[|s| - 1];
      LastPieceHyphenFree(before);
      ClosedSnoc(before, c);
      assert s == before + [c];
    }
  }

  lemma TidiedSnoc(closed: seq<string>, last: string, c: char)
    requires forall i :: 0 <= i < |last| ==> last[i] != '-'
    ensures var t := Tidied(closed, last);
            (if c == '-' && (t == [] || t[|t| - 1] == '-') then t else t + [c]) ==
            if c == '-' then Tidied(closed + (if last == "" then [] else [last]), "") else Tidied(closed, last + [c])
  {
    var t := Tidied(closed, last);
    if c == '-' {
      if last == "" {
        assert closed + [] == closed;
      } else {
        HyphenatedSnoc(closed, last);
        assert Hyphenated(closed + [last]) == t;
        assert t[|t| - 1] == last[|last| - 1];
        assert Tidied(closed + [last], "") == t + "-" + "" == t + ['-'];
      }
    } else if closed != [] {
      assert Hyphenated(closed) + "-" + (last + [c]) == (Hyphenated(closed) + "-" + last) + [c];
    }
  }

  lemma {:induction false} CollapsedIsTidied(s: string)
    ensures TrimmedLeft(Collapsed(s)) == Tidied(Closed(s), LastPiece(s))
  {
    if s != [] {
      var before, c := s[..|s| - 1], s[|s| - 1];
      assert s == before + [c];
      CollapsedIsTidied(before);
      CollapsedSnoc(before, c);
      ClosedSnoc(before, c);
      TrimmedPush(Collapsed(before), c);
      LastPieceHyphenFree(before);
      TidiedSnoc(Closed(before), LastPiece(before), c);
    }
  }

  lemma {:induction false} ClosedEndsInWord(s: string)
    ensures Closed(s) != [] ==> !EndsInHyphen(Hyphenated(Closed(s)))
    ensures forall w :: w in Closed(s) ==> w != "" && !EndsInHyphen(w)
  {
    if s != [] {
      var before, c := s[..|s| - 1], s[|s| - 1];
      assert s == before + [c];
      ClosedEndsInWord(before);
      ClosedSnoc(before, c);
      LastPieceHyphenFree(before);
      if c == '-' && LastPiece(before) != "" {
        HyphenatedSnoc(Closed(before), LastPiece(before));
      }
    }
  }

  lemma TidiedTrimmed(closed: seq<string>, last: string)
    requires closed != [] ==> !EndsInHyphen(Hyphenated(closed))
    requires !EndsInHyphen(last)
    ensures TrimmedRight(Tidied(closed, last)) == Hyphenated(closed + if last == "" then [] else [last])
  {
    if last == "" {
      assert closed + [] == closed;
      if closed != [] {
        var t := Hyphenated(closed);
        assert Tidied(closed, last) == t + ['-'] && (t + ['-'])[..|t|] == t;
      }
    } else {
      HyphenatedSnoc(closed, last);
    }
  }

  lemma WordsAre(s: string)
    ensures NonEmpty(Pieces(s)) == Closed(s) + if LastPiece(s) == "" then [] else [LastPiece(s)]
  {
    var ps := Pieces(s);
    assert ps == ps[..|ps| - 1] + [ps[|ps| - 1]];
    NonEmptySnoc(ps[..|ps| - 1], ps[|ps| - 1]);
  }

  lemma TrimmedIsWords(s: string)
    ensures Trimmed(Collapsed(s)) == Hyphenated(NonEmpty(Pieces(s)))
  {
    CollapsedIsTidied(s);
    ClosedEndsInWord(s);
    LastPieceHyphenFree(s);
    TidiedTrimmed(Closed(s), LastPiece(s));
    WordsAre(s);
  }

  lemma FittingPrefix(s: string, n: nat) returns (p: nat)
    ensures p <= |s| && Taken(Collapsed(s), n) == Collapsed(s[..p])
    ensures p < |s| ==> |Collapsed(s[..p])| == n
    ensures |s| <= n ==> p == |s|
  {
    p := 0;
    while p < |s| && |Collapsed(s[..p])| < n
      invariant p <= |s| && |Collapsed(s[..p])| <= n
    {
      CollapsedStep(s, p);
      p := p + 1;
    }
    CollapsedCut(s, p, n);
  }

  /// A sanitized text is the words of the text, hyphenated: all of them for a text that fits
  /// the buffer, and otherwise those of the part of it that fills the buffer.
  lemma SanitizedIsWords(text: string, size: nat) returns (p: nat)
    requires 1 <= size
    ensures p <= |text| && Sanitized(text, size) == Hyphenated(Words(text[..p]))
    ensures |text| < size ==> p == |text|
    ensures p < |text| ==> |Collapsed(Mapped(text[..p]))| == size - 1
  {
    p := FittingPrefix(Mapped(text), size - 1);
    assert Mapped(text)[..p] == Mapped(text[..p]);
    TrimmedIsWords(Mapped(text[..p]));
  }

  // --- bb_mdns_build_hostname -----------------------------------------------------------

  function MaxLabel(outSize: nat): nat
    requires outSize >= 1
  {
    if outSize > LABEL_MAX then LABEL_MAX else outSize - 1
  }

  /// The label before any cut to the label limit.
  function FullLabel(prefix: Option<string>, suffix: Option<string>): string {
    Joined(Sanitized(Text(prefix), WORK_SIZE), Sanitized(Text(suffix), WORK_SIZE))
  }

  function Joined(prefix: string, suffix: string): string {
    if prefix == [] then suffix else if suffix == [] then prefix else prefix + ['-'] + suffix
  }

  /// The full label cut to the limit; a cut that would leave just the separator
  /// behind the prefix drops the separator too.
  function Label(prefix: string, suffix: string, max: nat): (r: string)
    ensures |r| <= max
  {
    if prefix != [] && |prefix| == max - 1 then prefix else Taken(Joined(prefix, suffix), max)
  }

  function Hostname(prefix: Option<string>, suffix: Option<string>, outSize: nat): (r: string)
    requires outSize >= 1
    ensures |r| <= LABEL_MAX && |r| < outSize
  {
    Label(Sanitized(Text(prefix), WORK_SIZE), Sanitized(Text(suffix), WORK_SIZE), MaxLabel(outSize))
  }

  /// An output buffer of size zero is left alone; otherwise the label and its NUL
  /// are written and nothing behind them.
  method BuildHostname(prefix: Option<string>, suffix: Option<string>, out: array<char>)
    modifies out
    ensures out.Length >= 1 ==> Written(old(out[..]), out[..], Hostname(prefix, suffix, out.Length))
  {
    if out.Length < 1 {
      return;
    }
    var maxLabel := MaxLabel(out.Length);
    var work := new char[WORK_SIZE](_ => '\0');
    var prefixLen := SanitizeInto(prefix, work);
    WriteLabel(work[..prefixLen], work, prefixLen, suffix, maxLabel, out);
  }

  /// Everything behind the first sanitize_into.
  method WriteLabel(ghost cleanPrefix: string, work: array<char>, cleanLen: nat, suffix: Option<string>, maxLabel: nat,
                    out: array<char>)
    requires out != work && work.Length == WORK_SIZE && maxLabel < out.Length && maxLabel <= LABEL_MAX
    requires cleanLen == |cleanPrefix| <= work.Length && work[..cleanLen] == cleanPrefix
    modifies out, work
    ensures Written(old(out[..]), out[..], Label(cleanPrefix, Sanitized(Text(suffix), WORK_SIZE), maxLabel))
  {
    var prefixLen := cleanLen;
    if prefixLen > maxLabel {
      prefixLen := maxLabel;
    }
    assert work[..prefixLen] == cleanPrefix[..prefixLen];
    if Text(suffix) == [] {
      NoSuffix(suffix);
      PrefixOnly(cleanPrefix, work, prefixLen, maxLabel, out);
    } else {
      JoinSuffix(cleanPrefix, work, prefixLen, suffix, maxLabel, out);
    }
  }

  method PrefixOnly(ghost cleanPrefix: string, work: array<char>, prefixLen: nat, ghost maxLabel: nat, out: array<char>)
    requires out != work && maxLabel < out.Length && prefixLen == Fit(|cleanPrefix|, maxLabel) <= work.Length
    requires work[..prefixLen] == cleanPrefix[..prefixLen]
    modifies out
    ensures Written(old(out[..]), out[..], Label(cleanPrefix, [], maxLabel))
  {
    CopyInto(work, prefixLen, out, 0);
    Terminate(out, prefixLen, Label(cleanPrefix, [], maxLabel));
  }

  /// The label and its NUL, and nothing behind them.
  predicate Written(before: seq<char>, after: seq<char>, h: string) {
    && |h| < |after| == |before|
    && after[..|h|] == h
    && after[|h|] == '\0'
    && forall i :: |h| < i < |after| ==> after[i] == before[i]
  }

  method JoinSuffix(ghost cleanPrefix: string, work: array<char>, prefixLen: nat, suffix: Option<string>, maxLabel: nat,
                    out: array<char>)
    requires out != work && work.Length == WORK_SIZE && maxLabel < out.Length && maxLabel <= LABEL_MAX
    requires prefixLen == Fit(|cleanPrefix|, maxLabel) && work[..prefixLen] == cleanPrefix[..prefixLen]
    modifies out, work
    ensures Written(old(out[..]), out[..], Label(cleanPrefix, Sanitized(Text(suffix), WORK_SIZE), maxLabel))
  {
    var prefixBuf := new char[LABEL_MAX + 1](_ => '\0');
    CopyInto(work, prefixLen, prefixBuf, 0);
    prefixBuf[prefixLen] := '\0';
    assert prefixBuf[..prefixLen] == cleanPrefix[..prefixLen];
    var suffixLen := SanitizeInto(suffix, work);
    AssembleLabel(cleanPrefix, work[..suffixLen], prefixBuf, prefixLen, work, suffixLen, maxLabel, out);
  }

  method AssembleLabel(ghost prefix: string, ghost suffix: string, prefixBuf: array<char>, prefixLen: nat,
                       work: array<char>, cleanLen: nat, maxLabel: nat, out: array<char>)
    requires out != prefixBuf && out != work && cleanLen == |suffix| <= work.Length && work[..cleanLen] == suffix
    requires maxLabel < out.Length && prefixLen == Fit(|prefix|, maxLabel) <= prefixBuf.Length
    requires prefixBuf[..prefixLen] == prefix[..prefixLen]
    modifies out
    ensures Written(old(out[..]), out[..], Label(prefix, suffix, maxLabel))
  {
    var sep := if prefixLen > 0 && cleanLen > 0 then 1 else 0;
    var availSuffix := if prefixLen + sep < maxLabel then maxLabel - prefixLen - sep else 0;
    var suffixLen := cleanLen;
    if suffixLen > availSuffix {
      suffixLen := availSuffix;
    }
    assert work[..suffixLen] == suffix[..suffixLen];
    var pos := Assemble(prefixBuf, prefixLen, work, sep, suffixLen, out);
    Terminate(out, pos, Label(prefix, suffix, maxLabel));
  }

  lemma NoSuffix(suffix: Option<string>)
    requires Text(suffix) == []
    ensures Sanitized(Text(suffix), WORK_SIZE) == []
  {
    assert Collapsed(Mapped([])) == [];
  }

  method Terminate(out: array<char>, pos: nat, ghost h: string)
    requires pos < out.Length && out[..pos] == h
    modifies out
    ensures Written(old(out[..]), out[..], h)
  {
    out[pos] := '\0';
  }

  method Assemble(prefixBuf: array<char>, prefixLen: nat, work: array<char>, sep: nat, suffixLen: nat, out: array<char>)
    returns (pos: nat)
    requires out != prefixBuf && out != work
    requires prefixLen <= prefixBuf.Length && suffixLen <= work.Length
    requires prefixLen + (if sep > 0 && suffixLen > 0 then 1 else 0) + suffixLen < out.Length
    modifies out
    ensures pos < out.Length
    ensures out[..pos] == prefixBuf[..prefixLen] + (if sep > 0 && suffixLen > 0 then ['-'] else []) + work[..suffixLen]
    ensures forall i :: pos <= i < out.Length ==> out[i] == old(out[i])
  {
    pos := prefixLen;
    CopyInto(prefixBuf, prefixLen, out, 0);
    if sep > 0 && suffixLen > 0 {
      out[pos] := '-';
      pos := pos + 1;
      assert out[..pos] == prefixBuf[..prefixLen] + ['-'];
    }
    CopyInto(work, suffixLen, out, pos);
    pos := pos + suffixLen;
  }

  function Fit(n: nat, room: nat): nat {
    if n > room then room else n
  }

  // --- what a hostname is ----------------------------------------------------------------

  lemma JoinedIsClean(prefix: string, suffix: string)
    requires Clean(prefix) && Clean(suffix)
    ensures Clean(Joined(prefix, suffix))
  {
  }

  lemma TakenIsTidy(s: string, n: nat)
    requires LabelChars(s) && NoDoubledHyphen(s) && (s != [] ==> s[0] != '-')
    ensures var t := Taken(s, n);
            LabelChars(t) && NoDoubledHyphen(t) && (t != [] ==> t[0] != '-')
  {
    var t := Taken(s, n);
    forall i | 0 <= i < |t| - 1
      ensures !(t[i] == '-' && t[i + 1] == '-')
    {
      assert t[i] == s[i] && t[i + 1] == s[i + 1];
    }
  }

  lemma LabelIsTidy(prefix: string, suffix: string, max: nat)
    requires Clean(prefix) && Clean(suffix)
    ensures var h := Label(prefix, suffix, max);
            |h| <= max && LabelChars(h) && NoDoubledHyphen(h) && (h != [] ==> h[0] != '-')
  {
    JoinedIsClean(prefix, suffix);
    TakenIsTidy(Joined(prefix, suffix), max);
  }

  /// For all inputs: at most 63 characters and room for the NUL, only lower-case
  /// letters, digits and hyphens, no leading and no doubled hyphen.
  lemma HostnameIsLabel(prefix: Option<string>, suffix: Option<string>, outSize: nat)
    requires outSize >= 1
    ensures var h := Hostname(prefix, suffix, outSize);
            && |h| <= LABEL_MAX && |h| < outSize
            && LabelChars(h) && NoDoubledHyphen(h) && (h != [] ==> h[0] != '-')
  {
    SanitizedIsClean(Text(prefix), WORK_SIZE);
    SanitizedIsClean(Text(suffix), WORK_SIZE);
    var p, s := Sanitized(Text(prefix), WORK_SIZE), Sanitized(Text(suffix), WORK_SIZE);
    LabelIsTidy(p, s, MaxLabel(outSize));
  }

  /// The limit cuts the joined label right behind a hyphen that is not the
  /// separator.
  predicate CutBehindHyphen(prefix: string, suffix: string, max: nat) {
    var full := Joined(prefix, suffix);
    0 < max < |full| && full[max - 1] == '-' && |prefix| != max - 1
  }

  lemma LabelEndsInHyphenIff(prefix: string, suffix: string, max: nat)
    requires Clean(prefix) && Clean(suffix)
    ensures EndsInHyphen(Label(prefix, suffix, max)) <==> CutBehindHyphen(prefix, suffix, max)
  {
    JoinedIsClean(prefix, suffix);
    var full := Joined(prefix, suffix);
    if 0 < max < |full| {
      assert full[..max][max - 1] == full[max - 1];
    }
  }

  /// A hostname ends in a hyphen exactly when the cut to the label limit fell
  /// behind a hyphen of the sanitized prefix or suffix; when nothing is cut it never
  /// does.
  lemma TrailingHyphenIff(prefix: Option<string>, suffix: Option<string>, outSize: nat)
    requires outSize >= 1
    ensures EndsInHyphen(Hostname(prefix, suffix, outSize)) <==>
              CutBehindHyphen(Sanitized(Text(prefix), WORK_SIZE), Sanitized(Text(suffix), WORK_SIZE), MaxLabel(outSize))
  {
    SanitizedIsClean(Text(prefix), WORK_SIZE);
    SanitizedIsClean(Text(suffix), WORK_SIZE);
    var p, s := Sanitized(Text(prefix), WORK_SIZE), Sanitized(Text(suffix), WORK_SIZE);
    LabelEndsInHyphenIff(p, s, MaxLabel(outSize));
  }

  lemma UncutLabel(prefix: string, suffix: string, max: nat)
    requires |Joined(prefix, suffix)| <= max
    ensures Label(prefix, suffix, max) == Joined(prefix, suffix)
  {
  }

  /// Nothing is cut when the full label fits, and then the hostname is clean at
  /// both ends.
  lemma UncutIsFullLabel(prefix: Option<string>, suffix: Option<string>, outSize: nat)
    requires outSize >= 1 && |FullLabel(prefix, suffix)| <= MaxLabel(outSize)
    ensures Hostname(prefix, suffix, outSize) == FullLabel(prefix, suffix)
    ensures Clean(Hostname(prefix, suffix, outSize))
  {
    SanitizedIsClean(Text(prefix), WORK_SIZE);
    SanitizedIsClean(Text(suffix), WORK_SIZE);
    var p, s := Sanitized(Text(prefix), WORK_SIZE), Sanitized(Text(suffix), WORK_SIZE);
    JoinedIsClean(p, s);
    UncutLabel(p, s, MaxLabel(outSize));
  }

  /// The label cut to the limit, and one shorter only where the cut would leave the separator
  /// at the end.
  predicate CutAt(h: string, full: string, prefix: string, max: nat) {
    && h <= full
    && (|h| == Fit(|full|, max) || (h == prefix && |h| == max - 1 < |full| && full[max - 1] == '-'))
  }

  lemma LabelIsCut(prefix: string, suffix: string, max: nat)
    ensures CutAt(Label(prefix, suffix, max), Joined(prefix, suffix), prefix, max)
  {}

  /// The hostname is the full label, cut at 63 characters or where the buffer ends.
  lemma CutKeepsWhatFits(prefix: Option<string>, suffix: Option<string>, outSize: nat)
    requires outSize >= 1
    ensures CutAt(Hostname(prefix, suffix, outSize), FullLabel(prefix, suffix), Sanitized(Text(prefix), WORK_SIZE),
                  Fit(outSize - 1, 63))
  {
    hide Sanitized, Label, Joined, CutAt;
    LabelIsCut(Sanitized(Text(prefix), WORK_SIZE), Sanitized(Text(suffix), WORK_SIZE), MaxLabel(outSize));
  }

  /// Prefix "ab-cd" into a buffer of four: the cut leaves "ab-".
  lemma CutCanLeaveHyphen()
    ensures Hostname(Some("ab-cd"), None, 4) == "ab-"
  {
    var text := "ab-cd";
    assert Clean(text);
    CleanIffFixed(text, WORK_SIZE);
    TextIsItself(text);
    NoSuffix(None);
    assert text[..3] == "ab-";
  }

  lemma {:induction false} TextIsItself(s: string)
    requires forall i :: 0 <= i < |s| ==> s[i] != '\0'
    ensures CText(s) == s
  {
    assert |CText(s)| == |s|;
  }
}
