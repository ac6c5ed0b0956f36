/** The trolley-id QR code: the payload the label generator writes
    (App/frontend/src/utils/qrCodeGenerator.js) and the id the scanner reads
    back out of a decoded text (App/frontend/src/components/QRScanner.jsx). */
module QrCodec {
  import opened Wrappers
  import opened Text
  import UriEncoding

  /** The `baseUrl` used when the caller passes none. */
  const DefaultBaseUrl: string := "http://localhost:3000"

  /** The path and query key the generator appends to `baseUrl`. */
  const ConnectQuery: string := "/connect?trolley_id="

  /** The literal the scanner looks for; it is the tail of `ConnectQuery`, at offset 9. */
  const Key: string := "trolley_id="

  /** Prefix of the qr-server image URL; the URI-encoded payload follows it. */
  const QrImagePrefix: string := "https://api.qrserver.com/v1/create-qr-code/?size=300x300&data="

  datatype Instructions = Instructions(
    format: string,
    content: string,
    description: string,
    alternativeFormat: string,
    alternativeContent: string,
    alternativeDescription: string)

  datatype QrCodeData = QrCodeData(
    trolleyId: string,
    qrCodeData: string,
    alternativeData: string,
    instructions: Instructions)

  /** `generateQRCodeData(trolleyId, baseUrl)`; `None` is an omitted `baseUrl`. */
  function GenerateQRCodeData(trolleyId: string, baseUrl: Option<string>): (r: QrCodeData)
    ensures r.qrCodeData == baseUrl.GetOr(DefaultBaseUrl) + ConnectQuery + trolleyId
    ensures r.trolleyId == trolleyId && r.alternativeData == trolleyId
    ensures r.instructions.content == r.qrCodeData
    ensures r.instructions.alternativeContent == trolleyId
  {
    var fullUrl := baseUrl.GetOr(DefaultBaseUrl) + ConnectQuery + trolleyId;
    QrCodeData(
      trolleyId,
      fullUrl,
      trolleyId,
      Instructions(
        "URL",
        fullUrl,
        "Full URL that opens the app with trolley connected",
        "Plain Text",
        trolleyId,
        "Just the trolley ID for manual entry"))
  }

  /** `getQRCodeImageUrl(data)`: the fixed qr-server prefix, then `encodeURIComponent(data)`.
      The encoded part holds no `&`, `=`, `#` or space, so it stays one query value. */
  function GetQRCodeImageUrl(data: string): (r: string)
    ensures |r| >= |QrImagePrefix| && r[..|QrImagePrefix|] == QrImagePrefix
    ensures UriEncoding.QuerySafe(r[|QrImagePrefix|..])
    ensures UriEncoding.Decode(r[|QrImagePrefix|..]) == Some(data)
  {
    var enc := UriEncoding.Encode(data);
    UriEncoding.EncodeSafe(data);
    UriEncoding.DecodeEncode(data);
    var r := QrImagePrefix + enc;
    assert r[|QrImagePrefix|..] == enc;
    r
  }

  // ---------------------------------------------------------------------------
  // Scanner side: /trolley_id=([A-Z0-9_]+)/i

  /** `Key` occurs at `i`, compared as the `i` flag compares characters. */
  predicate KeyAt(text: string, i: int) {
    0 <= i && i + |Key| <= |text| &&
    forall k :: 0 <= k < |Key| ==> SameIgnoringCase(text[i + k], Key[k])
  }

  /** The regular expression matches at `i`: the key, then at least one word character. */
  predicate MatchAt(text: string, i: int) {
    KeyAt(text, i) && i + |Key| < |text| && IsWordChar(text[i + |Key|])
  }

  /** Leftmost match position at or after `from`, as `String.prototype.match` searches. */
  function FirstMatch(text: string, from: nat): (r: Option<nat>)
    ensures r.Some? ==> from <= r.value && MatchAt(text, r.value)
    ensures r.Some? ==> forall j :: from <= j < r.value ==> !MatchAt(text, j)
    ensures r.None? ==> forall j :: from <= j ==> !MatchAt(text, j)
    decreases |text| - from
  {
    if from + |Key| >= |text| then None
    else if MatchAt(text, from) then Some(from)
    else FirstMatch(text, from + 1)
  }

  /** Length of the greedy run of word characters starting at `i`. */
  function WordRun(text: string, i: nat): (n: nat)
    requires i <= |text|
    ensures i + n <= |text|
    ensures AllWordChars(text[i..i + n])
    ensures i + n == |text| || !IsWordChar(text[i + n])
    decreases |text| - i
  {
    if i < |text| && IsWordChar(text[i]) then
      var m := WordRun(text, i + 1);
      assert text[i..i + 1 + m] == [text[i]] + text[i + 1..i + 1 + m];
      1 + m
    else 0
  }

  /** The trolley id the scanner extracts from a decoded text, or `None` when
      `onScan` is not called. A text containing `trolley_id=` yields the
      upper-cased word run after the leftmost case-insensitive key that is followed
      by a word character; any other text that is a non-empty word yields itself
      upper-cased. */
  function ParseTrolleyId(text: string): (r: Option<string>)
    ensures r.Some? ==> |r.value| > 0 && AllUpperWordChars(r.value)
    ensures Contains(text, Key) ==> (r.Some? <==> FirstMatch(text, 0).Some?)
    ensures !Contains(text, Key) ==> (r.Some? <==> |text| > 0 && AllWordChars(text))
    ensures !Contains(text, Key) && r.Some? ==> r.value == ToUpper(text)
  {
    if Contains(text, Key) then
      match FirstMatch(text, 0)
      case Some(i) =>
        var start := i + |Key|;
        var run := text[start..start + WordRun(text, start)];
        ToUpperOfWord(run);
        Some(ToUpper(run))
      case None => None
    else if |text| > 0 && AllWordChars(text) then
      ToUpperOfWord(text);
      Some(ToUpper(text))
    else None
  }

  /** A word never contains the key, whose last character is '='. */
  lemma WordHasNoKey(s: string)
    requires AllWordChars(s)
    ensures !Contains(s, Key)
  {
    forall i | 0 <= i <= |s| - |Key|
      ensures !OccursAt(s, Key, i)
    {
      assert IsWordChar(s[i + 10]) && Key[10] == '=';
      assert s[i..i + |Key|][10] == s[i + 10];
    }
  }

  /** Reading back an extracted id returns it unchanged. */
  lemma {:induction false} ParseIdempotent(text: string)
    requires ParseTrolleyId(text).Some?
    ensures ParseTrolleyId(ParseTrolleyId(text).value) == ParseTrolleyId(text)
  {
    var id := ParseTrolleyId(text).value;
    assert AllWordChars(id);
    WordHasNoKey(id);
    ToUpperFixesUpperWord(id);
  }

  /** The scanner's `handleError` drops string errors mentioning `NotFoundException`
      and logs every other error. */
  datatype ScanError = StringError(message: string) | OtherError

  function QrErrorLogged(err: ScanError): (logged: bool)
    ensures !logged <==> err.StringError? && Contains(err.message, "NotFoundException")
  {
    match err
    case StringError(m) => !Contains(m, "NotFoundException")
    case OtherError => true
  }

  /** The decoder reports each frame without a code as a message embedding
      `NotFoundException`; whatever surrounds it, such a message is dropped.
      The test is case-sensitive, unlike the id pattern: a lower-case mention is
      logged, and so is every error that is not a string. */
  lemma NotFoundFramesAreDropped(prefix: string, suffix: string)
    ensures !QrErrorLogged(StringError(prefix + "NotFoundException" + suffix))
    ensures QrErrorLogged(StringError("notfoundexception"))
    ensures QrErrorLogged(OtherError)
  {
    var m := prefix + "NotFoundException" + suffix;
    assert m[|prefix|..|prefix| + 17] == "NotFoundException";
    assert OccursAt(m, "NotFoundException", |prefix|);
    AbsentCharNotContained("notfoundexception", "NotFoundException", 0);
  }

  // ---------------------------------------------------------------------------
  // Round trip

  /** `baseUrl` holds no case-insensitive `trolley_id=` of its own. */
  predicate KeyFree(baseUrl: string) {
    forall i :: 0 <= i < |baseUrl| ==> !KeyAt(baseUrl, i)
  }

  /** No match starts before the key that `ConnectQuery` puts after `baseUrl`. */
  lemma NoEarlierMatch(baseUrl: string, id: string, j: int)
    requires KeyFree(baseUrl)
    requires 0 <= j < |baseUrl| + 9
    ensures !MatchAt(baseUrl + ConnectQuery + id, j)
  {
    var text := baseUrl + ConnectQuery + id;
    var b := |baseUrl|;
    if j + |Key| <= b {
      if KeyAt(text, j) {
        forall k | 0 <= k < |Key| ensures SameIgnoringCase(baseUrl[j + k], Key[k]) {
          assert text[j + k] == baseUrl[j + k];
        }
        assert KeyAt(baseUrl, j);
      }
    } else if j < b {
      // the key would have to cover the '/' that starts ConnectQuery
      var k := b - j;
      assert text[b] == ConnectQuery[0] == '/';
      assert !SameIgnoringCase(text[j + k], Key[k]);
    } else {
      var m := j - b;
      assert text[j] == ConnectQuery[m];
      if m == 7 {
        assert text[j + 1] == ConnectQuery[8] == '?';
        assert !SameIgnoringCase(text[j + 1], Key[1]);
      } else {
        assert !SameIgnoringCase(text[j], Key[0]);
      }
    }
  }

  /** The leftmost-match search lands on `p` when nothing matches in between. */
  lemma {:induction false} FirstMatchAt(text: string, from: nat, p: nat)
    requires from <= p && MatchAt(text, p)
    requires forall j :: from <= j < p ==> !MatchAt(text, j)
    ensures FirstMatch(text, from) == Some(p)
    decreases p - from
  {
    if from < p {
      FirstMatchAt(text, from + 1, p);
    }
  }

  /** A word that runs to the end of the text is taken whole. */
  lemma {:induction false} WordRunToEnd(text: string, i: nat)
    requires i <= |text| && AllWordChars(text[i..])
    ensures WordRun(text, i) == |text| - i
    decreases |text| - i
  {
    if i < |text| {
      assert text[i] == text[i..][0];
      assert text[i + 1..] == text[i..][1..];
      WordRunToEnd(text, i + 1);
    }
  }

  /** The key that `ConnectQuery` puts after `baseUrl` is followed by the id. */
  lemma KeyAfterBase(base: string, id: string)
    requires |id| > 0 && AllWordChars(id)
    ensures OccursAt(base + ConnectQuery + id, Key, |base| + 9)
    ensures MatchAt(base + ConnectQuery + id, |base| + 9)
  {
    var text := base + ConnectQuery + id;
    var p := |base| + 9;
    assert text[p..p + |Key|] == Key;
    assert text[p + |Key|] == id[0];
  }

  /** In a generated URL the first match is the key of `ConnectQuery`. */
  lemma GeneratedUrlMatch(base: string, id: string)
    requires |id| > 0 && AllWordChars(id) && KeyFree(base)
    ensures FirstMatch(base + ConnectQuery + id, 0) == Some(|base| + 9)
    ensures Contains(base + ConnectQuery + id, Key)
  {
    var text := base + ConnectQuery + id;
    var p := |base| + 9;
    KeyAfterBase(base, id);
    forall j | 0 <= j < p
      ensures !MatchAt(text, j)
    {
      NoEarlierMatch(base, id, j);
    }
    FirstMatchAt(text, 0, p);
  }

  /** Scanning a generated URL gives back the id, upper-cased. */
  lemma ScanOfUrl(base: string, id: string)
    requires |id| > 0 && AllWordChars(id) && KeyFree(base)
    ensures ParseTrolleyId(base + ConnectQuery + id) == Some(ToUpper(id))
  {
    var text := base + ConnectQuery + id;
    GeneratedUrlMatch(base, id);
    RunAfterQuery(base, id);
    ParseAtMatch(text, |base| + 9, id);
  }

  /** In a generated URL, the word run after the key is exactly the id. */
  lemma RunAfterQuery(base: string, id: string)
    requires AllWordChars(id)
    ensures var text := base + ConnectQuery + id;
      var start := |base| + 9 + |Key|;
      && start == |base + ConnectQuery| && start <= |text|
      && text[start..start + WordRun(text, start)] == id
  {
    var prefix := base + ConnectQuery;
    var text := prefix + id;
    var start := |prefix|;
    assert text[start..] == id;
    WordRunToEnd(text, start);
  }

  /** A text holding the key yields the upper-cased word run after its first match. */
  lemma ParseAtMatch(text: string, i: nat, run: string)
    requires Contains(text, Key) && FirstMatch(text, 0) == Some(i)
    requires i + |Key| <= |text| && run == text[i + |Key|..i + |Key| + WordRun(text, i + |Key|)]
    ensures ParseTrolleyId(text) == Some(ToUpper(run))
  {
  }

  /** Scanning a generated label gives back the id, upper-cased, whether the
      QR holds the full URL or the bare id; it needs an id that is a non-empty
      word and a `baseUrl` without its own `trolley_id=`. */
  lemma ScanOfGeneratedLabel(id: string, baseUrl: Option<string>)
    requires |id| > 0 && AllWordChars(id)
    requires KeyFree(baseUrl.GetOr(DefaultBaseUrl))
    ensures ParseTrolleyId(GenerateQRCodeData(id, baseUrl).qrCodeData) == Some(ToUpper(id))
    ensures ParseTrolleyId(GenerateQRCodeData(id, baseUrl).alternativeData) == Some(ToUpper(id))
  {
    ScanOfUrl(baseUrl.GetOr(DefaultBaseUrl), id);
    WordHasNoKey(id);
  }

  /** With the default base URL the round trip needs only a word id. */
  lemma DefaultBaseUrlIsKeyFree()
    ensures KeyFree(DefaultBaseUrl)
  {
    forall i | 0 <= i < |DefaultBaseUrl|
      ensures !KeyAt(DefaultBaseUrl, i)
    {
      if i + |Key| <= |DefaultBaseUrl| {
        var c := DefaultBaseUrl[i + 10];
        assert c != '=';
        assert UpperChar(c) != UpperChar(Key[10]);
      }
    }
  }
}
