/** `CardanoNodeMonitor.format_telegram_message`: the HTML text sent for a
    new release, built line by line and joined with newlines. */
module MessageFormat {
  import opened Strings
  import opened Release
  import opened VersionParser

  /** The emoji that opens warning lines. */
  const WarningSign: string := "\U{26A0}\U{FE0F}"

  const Header: string := "\U{1F514} <b>New Cardano Node Release!</b>"
  const PreReleaseNote: string := "\n" + WarningSign + " <b>Note:</b> This is a pre-release version"
  const DownloadsHeading: string := "\n<b>Available Downloads:</b>"

  function VersionLine(tag: string): string { "\n<b>Version:</b> " + tag }
  function NameLine(name: string): string { "<b>Name:</b> " + name }
  function UrlLine(url: string): string { "\n<b>Release URL:</b> " + url }
  function AssetLine(name: string): string { "\U{2022} " + name }
  function NotesLine(notes: string): string { "\n<b>Release Notes:</b>\n" + notes }

  function KeywordWarning(keyword: string): string
  {
    "\n" + WarningSign + " <b>IMPORTANT:</b> This release contains a " + keyword + "!"
  }

  /** Notes longer than this are cut, to stay within the message size. */
  const MaxNotesLength: nat := 500
  /** How much of over-long notes is kept before the ellipsis. */
  const KeptNotesLength: nat := 497
  const Ellipsis: string := "..."

  /** The phrases whose presence in the notes earns a warning line, in the
      order the warnings appear. */
  const ImportantKeywords: seq<string> := ["breaking change", "upgrade required", "mandatory upgrade"]

  /** The notes as shown: unchanged up to 500 characters, otherwise their
      first 497 characters and "...", exactly 500 in all. */
  function TruncateNotes(body: string): (notes: string)
    ensures |notes| <= MaxNotesLength
    ensures notes == body <==> |body| <= MaxNotesLength
    ensures |body| > MaxNotesLength ==>
              |notes| == MaxNotesLength &&
              notes[..KeptNotesLength] == body[..KeptNotesLength] &&
              notes[KeptNotesLength..] == Ellipsis
  {
    if |body| > MaxNotesLength then body[..KeptNotesLength] + Ellipsis else body
  }

  /** One bullet line per asset, in feed order. */
  function AssetLines(assets: seq<string>): (lines: seq<string>)
    ensures |lines| == |assets|
    ensures forall i :: 0 <= i < |assets| ==> lines[i] == AssetLine(assets[i])
  {
    if assets == [] then []
    else AssetLines(assets[..|assets| - 1]) + [AssetLine(assets[|assets| - 1])]
  }

  /** One more asset adds its bullet line at the end. */
  lemma AssetLinesStep(assets: seq<string>, i: nat)
    requires i < |assets|
    ensures AssetLines(assets[..i + 1]) == AssetLines(assets[..i]) + [AssetLine(assets[i])]
  {
    assert assets[..i + 1][..i] == assets[..i];
  }

  /** The download section: absent when there are no assets. */
  function DownloadLines(assets: seq<string>): seq<string>
  {
    if |assets| == 0 then [] else [DownloadsHeading] + AssetLines(assets)
  }

  /** One warning line for each keyword that occurs in `lowerBody`, in the
      order of `keywords`. */
  function KeywordWarnings(keywords: seq<string>, lowerBody: string): seq<string>
  {
    if keywords == [] then []
    else
      var last := keywords[|keywords| - 1];
      KeywordWarnings(keywords[..|keywords| - 1], lowerBody) +
      (if Contains(lowerBody, last) then [KeywordWarning(last)] else [])
  }

  /** Scanning one more keyword adds its warning at the end, if it occurs. */
  lemma KeywordWarningsStep(keywords: seq<string>, k: nat, lowerBody: string)
    requires k < |keywords|
    ensures KeywordWarnings(keywords[..k + 1], lowerBody) ==
            KeywordWarnings(keywords[..k], lowerBody) +
            (if Contains(lowerBody, keywords[k]) then [KeywordWarning(keywords[k])] else [])
  {
    assert keywords[..k + 1][..k] == keywords[..k];
  }

  /** Header, version, name, the optional pre-release note and the URL. */
  function HeadLines(release: ReleaseRecord): seq<string>
  {
    [Header, VersionLine(release.tagName), NameLine(release.name)] +
    (if ParseVersion(release.tagName).isPreRelease then [PreReleaseNote] else []) +
    [UrlLine(release.htmlUrl)]
  }

  /** The lines of the message, in the order they are appended. */
  function MessageLines(release: ReleaseRecord): (lines: seq<string>)
    ensures |lines| >= 5 && lines[0] == Header
  {
    HeadLines(release) + DownloadLines(release.assets) +
    [NotesLine(TruncateNotes(release.body))] +
    KeywordWarnings(ImportantKeywords, Lower(release.body))
  }

  /** The keyword loop of `format_telegram_message`: appends a warning for
      each important keyword found in the lower-cased notes. */
  method AppendKeywordWarnings(message: seq<string>, releaseNotesLower: string)
    returns (result: seq<string>)
    ensures result == message + KeywordWarnings(ImportantKeywords, releaseNotesLower)
  {
    result := message;
    for k := 0 to |ImportantKeywords|
      invariant result == message + KeywordWarnings(ImportantKeywords[..k], releaseNotesLower)
    {
      var keyword := ImportantKeywords[k];
      KeywordWarningsStep(ImportantKeywords, k, releaseNotesLower);
      if Contains(releaseNotesLower, keyword) {
        result := result + [KeywordWarning(keyword)];
      }
    }
    assert ImportantKeywords[..|ImportantKeywords|] == ImportantKeywords;
  }

  /** The download section of `format_telegram_message`: the heading and a
      bullet line per asset, appended only when there are assets. */
  method AppendDownloads(message: seq<string>, assets: seq<string>)
    returns (result: seq<string>)
    ensures result == message + DownloadLines(assets)
  {
    result := message;
    if |assets| > 0 {
      result := result + [DownloadsHeading];
      ghost var before := result;
      for i := 0 to |assets|
        invariant result == before + AssetLines(assets[..i])
      {
        AssetLinesStep(assets, i);
        result := result + [AssetLine(assets[i])];
      }
      assert assets[..|assets|] == assets;
      assert result == message + ([DownloadsHeading] + AssetLines(assets));
    }
  }

  /** `format_telegram_message(release_info)`. */
  method FormatTelegramMessage(release: ReleaseRecord) returns (text: string)
    ensures text == Join(MessageLines(release), "\n")
  {
    var versionInfo := ParseVersion(release.tagName);
    var message := [Header, VersionLine(release.tagName), NameLine(release.name)];
    if versionInfo.isPreRelease {
      message := message + [PreReleaseNote];
    }
    message := message + [UrlLine(release.htmlUrl)];
    assert message == HeadLines(release);

    message := AppendDownloads(message, release.assets);

    var notes := release.body;
    if |notes| > MaxNotesLength {
      notes := notes[..KeptNotesLength] + Ellipsis;
    }
    assert notes == TruncateNotes(release.body);
    message := message + [NotesLine(notes)];

    message := AppendKeywordWarnings(message, Lower(release.body));
    text := Join(message, "\n");
  }

  /** The indices of the keywords that occur in the text, in increasing order. */
  function MatchedKeywords(keywords: seq<string>, lowerBody: string): (picked: seq<nat>)
    ensures forall j :: 0 <= j < |picked| ==> picked[j] < |keywords|
    ensures forall j, j' :: 0 <= j < j' < |picked| ==> picked[j] < picked[j']
    ensures forall i :: 0 <= i < |keywords| ==> (Contains(lowerBody, keywords[i]) <==> i in picked)
  {
    if keywords == [] then []
    else
      var n := |keywords| - 1;
      var earlier := MatchedKeywords(keywords[..n], lowerBody);
      assert forall i :: 0 <= i < n ==> keywords[..n][i] == keywords[i];
      if Contains(lowerBody, keywords[n]) then earlier + [n] else earlier
  }

  /** The warnings follow the keyword list: the j-th warning names the j-th
      matched keyword. */
  lemma {:induction false} KeywordWarningsInOrder(keywords: seq<string>, lowerBody: string)
    ensures var picked := MatchedKeywords(keywords, lowerBody);
            |KeywordWarnings(keywords, lowerBody)| == |picked| &&
            forall j :: 0 <= j < |picked| ==>
              KeywordWarnings(keywords, lowerBody)[j] == KeywordWarning(keywords[picked[j]])
  {
    if keywords != [] {
      var n := |keywords| - 1;
      var init := keywords[..n];
      KeywordWarningsInOrder(init, lowerBody);
      var earlier := MatchedKeywords(init, lowerBody);
      forall j | 0 <= j < |earlier|
        ensures init[earlier[j]] == keywords[earlier[j]]
      {
      }
    }
  }

  /** Every keyword that occurs earns its warning. */
  lemma KeywordFoundWarns(keywords: seq<string>, lowerBody: string, k: nat)
    requires k < |keywords| && Contains(lowerBody, keywords[k])
    ensures KeywordWarning(keywords[k]) in KeywordWarnings(keywords, lowerBody)
  {
    var picked := MatchedKeywords(keywords, lowerBody);
    assert k in picked;
    var j :| 0 <= j < |picked| && picked[j] == k;
    KeywordWarningsInOrder(keywords, lowerBody);
    assert KeywordWarnings(keywords, lowerBody)[j] == KeywordWarning(keywords[k]);
  }

  /** An important keyword anywhere in the notes, in any letter case and even
      beyond the part of the notes that is shown, earns its warning line. */
  lemma KeywordAnywhereWarns(release: ReleaseRecord, k: nat, i: nat)
    requires k < |ImportantKeywords|
    requires i + |ImportantKeywords[k]| <= |release.body|
    requires Lower(release.body[i..i + |ImportantKeywords[k]|]) == ImportantKeywords[k]
    ensures KeywordWarning(ImportantKeywords[k]) in MessageLines(release)
  {
    var keyword := ImportantKeywords[k];
    var lowerBody := Lower(release.body);
    assert OccursAt(lowerBody, keyword, i) by {
      assert lowerBody[i..i + |keyword|] == Lower(release.body[i..i + |keyword|]);
    }
    KeywordFoundWarns(ImportantKeywords, lowerBody, k);
    var warnings := KeywordWarnings(ImportantKeywords, lowerBody);
    var before := HeadLines(release) + DownloadLines(release.assets) +
                  [NotesLine(TruncateNotes(release.body))];
    assert MessageLines(release) == before + warnings;
  }

  /** No keyword in the notes, no warning line. */
  lemma {:induction false} NoKeywordNoWarning(keywords: seq<string>, lowerBody: string)
    requires forall i :: 0 <= i < |keywords| ==> !Contains(lowerBody, keywords[i])
    ensures KeywordWarnings(keywords, lowerBody) == []
  {
    if keywords != [] {
      NoKeywordNoWarning(keywords[..|keywords| - 1], lowerBody);
    }
  }

  /** The three warnings of the monitor, spelled out in their order. */
  lemma ImportantKeywordWarnings(lowerBody: string)
    ensures KeywordWarnings(ImportantKeywords, lowerBody) ==
            (if Contains(lowerBody, "breaking change") then [KeywordWarning("breaking change")] else []) +
            (if Contains(lowerBody, "upgrade required") then [KeywordWarning("upgrade required")] else []) +
            (if Contains(lowerBody, "mandatory upgrade") then [KeywordWarning("mandatory upgrade")] else [])
  {
    KeywordWarningsStep(ImportantKeywords, 0, lowerBody);
    KeywordWarningsStep(ImportantKeywords, 1, lowerBody);
    KeywordWarningsStep(ImportantKeywords, 2, lowerBody);
    assert ImportantKeywords[..0] == [];
    assert ImportantKeywords[..3] == ImportantKeywords;
  }

  /** The head of the message: header, version, name, then the pre-release
      note exactly for pre-release tags, and the URL last. */
  lemma HeadLinesShape(release: ReleaseRecord)
    ensures var head := HeadLines(release);
            |head| == (if ParseVersion(release.tagName).isPreRelease then 5 else 4) &&
            head[..3] == [Header, VersionLine(release.tagName), NameLine(release.name)] &&
            (head[3] == PreReleaseNote <==> ParseVersion(release.tagName).isPreRelease) &&
            head[|head| - 1] == UrlLine(release.htmlUrl)
  {
    assert UrlLine(release.htmlUrl)[1] == '<';
    assert PreReleaseNote[1] == WarningSign[0];
  }

  /** The download section: the heading, then one line per asset in feed order. */
  lemma DownloadLinesShape(assets: seq<string>)
    ensures |assets| == 0 ==> DownloadLines(assets) == []
    ensures |assets| > 0 ==>
              |DownloadLines(assets)| == |assets| + 1 &&
              DownloadLines(assets)[0] == DownloadsHeading &&
              forall i :: 0 <= i < |assets| ==> DownloadLines(assets)[i + 1] == AssetLine(assets[i])
  {
  }

  /** Where each part of the message sits: header, version and name first; a
      pre-release note at index 3 exactly for pre-release tags; then the URL,
      the downloads heading and one line per asset in feed order when there
      are assets; then the (possibly truncated) notes at index n; and after
      them nothing but the keyword warnings, computed on the whole body. */
  lemma MessageLayout(release: ReleaseRecord) returns (n: nat)
    ensures n == (if ParseVersion(release.tagName).isPreRelease then 5 else 4) +
                 (if release.assets == [] then 0 else |release.assets| + 1)
    ensures var lines := MessageLines(release);
            n < |lines| &&
            lines[..3] == [Header, VersionLine(release.tagName), NameLine(release.name)] &&
            (lines[3] == PreReleaseNote <==> ParseVersion(release.tagName).isPreRelease) &&
            lines[n] == NotesLine(TruncateNotes(release.body)) &&
            lines[n + 1..] == KeywordWarnings(ImportantKeywords, Lower(release.body))
    ensures var lines := MessageLines(release);
            var assets := release.assets;
            if assets == [] then
              lines[n - 1] == UrlLine(release.htmlUrl)
            else
              n >= |assets| + 2 &&
              lines[n - |assets| - 2] == UrlLine(release.htmlUrl) &&
              lines[n - |assets| - 1] == DownloadsHeading &&
              forall i :: 0 <= i < |assets| ==> lines[n - |assets| + i] == AssetLine(assets[i])
  {
    var head := HeadLines(release);
    var downloads := DownloadLines(release.assets);
    var warnings := KeywordWarnings(ImportantKeywords, Lower(release.body));
    var lines := MessageLines(release);
    HeadLinesShape(release);
    DownloadLinesShape(release.assets);
    n := |head| + |downloads|;
    assert lines == (head + downloads) + ([NotesLine(TruncateNotes(release.body))] + warnings);
    assert lines[..|head|] == head;
    assert lines[|head|..n] == downloads;
    assert lines[n..] == [NotesLine(TruncateNotes(release.body))] + warnings;
  }
}
