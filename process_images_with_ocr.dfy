/**
 * The OCR result pipeline of `src/lib/process-images-with-ocr.js`: the text cleaner, the
 * content-addressed result cache in front of the recogniser, and the in-order batch loop.
 */
module OcrPipeline {
  import opened Wrappers
  import opened Strings
  import opened PdfPage

  // ---------------------------------------------------------------------------------------------
  // cleanOcrText
  // ---------------------------------------------------------------------------------------------

  /** Every whitespace character of `s` is a plain space. */
  predicate PlainSpaces(s: string) {
    forall i :: 0 <= i < |s| && IsSpace(s[i]) ==> s[i] == ' '
  }

  /** No two neighbouring characters of `s` are both whitespace. */
  predicate SingleSpaced(s: string) {
    forall i :: 0 < i < |s| && IsSpace(s[i]) ==> !IsSpace(s[i - 1])
  }

  /** `s` starts with a whitespace character. */
  predicate LeadingSpace(s: string) {
    s != [] && IsSpace(s[0])
  }

  /** `s.replace(/\s+/g, ' ')`: every maximal run of whitespace becomes one space. */
  function CollapseSpace(s: string): (r: string)
    ensures PlainSpaces(r) && SingleSpaced(r)
    ensures (r == []) == (s == []) && LeadingSpace(r) == LeadingSpace(s)
    decreases |s|
  {
    if s == [] then []
    else if IsSpace(s[0]) then " " + CollapseSpace(s[SkipSpace(s, 0)..])
    else [s[0]] + CollapseSpace(s[1..])
  }

  /** The class `[^a-zA-Z0-9\s]`. */
  predicate Junk(c: char) {
    !IsAsciiAlnum(c) && !IsSpace(c)
  }

  /**
   * The length of a match of `\s[^a-zA-Z0-9\s]{1,2}\s` at the start of `t`: the greedy `{1,2}`
   * tries two junk characters first and falls back to one.
   */
  function IsolatedMatch(t: string): (r: Option<nat>)
    ensures r.Some? ==> (r.value == 3 || r.value == 4) && r.value <= |t|
    ensures r.Some? ==> IsSpace(t[0]) && IsSpace(t[r.value - 1])
    ensures r.Some? ==> forall k :: 0 < k < r.value - 1 ==> Junk(t[k])
    ensures r.Some? ==> forall k :: 0 <= k < r.value ==> !IsAsciiAlnum(t[k])
  {
    if |t| >= 4 && IsSpace(t[0]) && Junk(t[1]) && Junk(t[2]) && IsSpace(t[3]) then Some(4)
    else if |t| >= 3 && IsSpace(t[0]) && Junk(t[1]) && IsSpace(t[2]) then Some(3)
    else None
  }

  /**
   * `t.replace(/\s[^a-zA-Z0-9\s]{1,2}\s/g, ' ')`: matches are found left to right and do not
   * overlap, so the scan resumes after the trailing whitespace a match consumed.
   */
  function DropIsolated(t: string): (r: string)
    ensures (r == []) == (t == []) && LeadingSpace(r) == LeadingSpace(t)
    decreases |t|
  {
    if t == [] then []
    else match IsolatedMatch(t)
      case Some(n) => " " + DropIsolated(t[n..])
      case None => [t[0]] + DropIsolated(t[1..])
  }

  /** Dropping isolated junk keeps whitespace plain and single. */
  lemma {:induction false} DropIsolatedSpacing(t: string)
    requires PlainSpaces(t) && SingleSpaced(t)
    ensures PlainSpaces(DropIsolated(t)) && SingleSpaced(DropIsolated(t))
    decreases |t|
  {
    if t != [] {
      var n := match IsolatedMatch(t) case Some(n) => n case None => 1;
      var head := if IsolatedMatch(t).Some? then " " else [t[0]];
      var u := t[n..];
      forall i | 0 < i < |u| && IsSpace(u[i]) ensures !IsSpace(u[i - 1]) {
        assert u[i] == t[i + n] && u[i - 1] == t[i + n - 1];
      }
      forall i | 0 <= i < |u| && IsSpace(u[i]) ensures u[i] == ' ' {
        assert u[i] == t[i + n];
      }
      DropIsolatedSpacing(u);
      var rest := DropIsolated(u);
      assert DropIsolated(t) == head + rest;
      assert IsSpace(head[0]) ==> !LeadingSpace(u) by {
        if IsSpace(head[0]) && u != [] {
          assert IsSpace(t[n - 1]) && u[0] == t[n];
        }
      }
      var r := head + rest;
      forall i | 0 < i < |r| && IsSpace(r[i]) ensures !IsSpace(r[i - 1]) {
        if i > 1 {
          assert r[i] == rest[i - 1] && r[i - 1] == rest[i - 2];
        }
      }
      forall i | 0 <= i < |r| && IsSpace(r[i]) ensures r[i] == ' ' {
        if i > 0 {
          assert r[i] == rest[i - 1];
        }
      }
    }
  }

  /** Dropping isolated junk neither adds nor removes ASCII letters and digits. */
  lemma {:induction false} DropIsolatedAlnum(t: string)
    ensures HasAsciiAlnum(DropIsolated(t)) == HasAsciiAlnum(t)
    decreases |t|
  {
    if t != [] {
      var m := IsolatedMatch(t);
      var n := if m.Some? then m.value else 1;
      var head := if m.Some? then " " else [t[0]];
      DropIsolatedAlnum(t[n..]);
      var rest := DropIsolated(t[n..]);
      assert DropIsolated(t) == head + rest;
      AlnumSplit(t, n);
      AlnumSplit(head + rest, 1);
      assert (head + rest)[1..] == rest && (head + rest)[..1] == head;
      assert HasAsciiAlnum(head) == HasAsciiAlnum(t[..n]) by {
        if m.Some? {
          forall k | 0 <= k < n ensures !IsAsciiAlnum(t[..n][k]) {
            assert t[..n][k] == t[k];
          }
          assert !IsAsciiAlnum(head[0]);
        } else {
          assert t[..n] == head;
        }
      }
    }
  }

  /** A letter or digit lies in a string exactly when it lies in its first `n` characters or in the rest. */
  lemma {:induction false} AlnumSplit(s: string, n: nat)
    requires n <= |s|
    ensures HasAsciiAlnum(s) == (HasAsciiAlnum(s[..n]) || HasAsciiAlnum(s[n..]))
  {
    if HasAsciiAlnum(s) {
      var i :| 0 <= i < |s| && IsAsciiAlnum(s[i]);
      if i < n {
        assert s[..n][i] == s[i];
      } else {
        assert s[n..][i - n] == s[i];
      }
    }
    if HasAsciiAlnum(s[..n]) {
      var i :| 0 <= i < n && IsAsciiAlnum(s[..n][i]);
      assert s[i] == s[..n][i];
    }
    if HasAsciiAlnum(s[n..]) {
      var i :| 0 <= i < |s| - n && IsAsciiAlnum(s[n..][i]);
      assert s[i + n] == s[n..][i];
    }
  }

  /** `lines.filter(line => /[a-zA-Z0-9]/.test(line))` */
  function KeepLines(lines: seq<string>): (r: seq<string>)
    ensures |r| <= |lines|
    ensures forall k :: 0 <= k < |r| ==> HasAsciiAlnum(r[k])
  {
    if lines == [] then []
    else if HasAsciiAlnum(lines[0]) then [lines[0]] + KeepLines(lines[1..])
    else KeepLines(lines[1..])
  }

  /**
   * `cleanOcrText(text)`: a falsy input (`None`, or the empty string) gives the empty string;
   * otherwise whitespace runs are collapsed, isolated junk tokens dropped, lines without an
   * ASCII letter or digit filtered out, and the result trimmed.
   */
  function CleanOcrText(text: Option<string>): string {
    if text.None? || text.value == "" then ""
    else Trim(Join(KeepLines(Split(DropIsolated(CollapseSpace(text.value)), '\n')), "\n"))
  }

  /**
   * Every whitespace character of `s` is a plain space, so it has no line break; no two
   * neighbouring characters are whitespace, and neither end is.
   */
  predicate Tidy(s: string) {
    PlainSpaces(s) && '\n' !in s && SingleSpaced(s) && (s == [] || (!IsSpace(s[0]) && !IsSpace(s[|s| - 1])))
  }

  /** An infix of a single-spaced string whose whitespace is plain spaces is one too. */
  lemma {:induction false} InfixTidy(u: string, v: string, a: nat)
    requires OccursAt(u, v, a)
    requires PlainSpaces(u) && SingleSpaced(u)
    ensures PlainSpaces(v) && '\n' !in v && SingleSpaced(v)
  {
    assert v == u[a..a + |v|];
    forall i | 0 <= i < |v| ensures v[i] != '\n' && (IsSpace(v[i]) ==> v[i] == ' ') {
      assert v[i] == u[a + i];
    }
    forall i | 0 < i < |v| && IsSpace(v[i]) ensures !IsSpace(v[i - 1]) {
      assert v[i] == u[a + i] && v[i - 1] == u[a + i - 1];
    }
  }

  /**
   * The cleaner's promise: the result is tidy (no line break, no double whitespace, trimmed),
   * and it is either empty or holds at least one ASCII letter or digit.
   */
  lemma {:induction false} CleanOcrTextTidy(text: Option<string>)
    ensures Tidy(CleanOcrText(text))
    ensures CleanOcrText(text) == "" || HasAsciiAlnum(CleanOcrText(text))
  {
    if text.Some? && text.value != "" {
      var t := CollapseSpace(text.value);
      var u := DropIsolated(t);
      DropIsolatedSpacing(t);
      DropIsolatedAlnum(t);
      assert '\n' !in u;
      SplitNoSep(u, '\n');
      var one: seq<string> := [u];
      assert one[1..] == [];
      if HasAsciiAlnum(u) {
        assert KeepLines(one) == one;
        assert CleanOcrText(text) == Trim(u);
        TrimTidy(u);
      } else {
        assert KeepLines(one) == [];
        assert CleanOcrText(text) == Trim("");
      }
    }
  }

  /** Trimming a single-spaced string of plain spaces leaves it tidy, and keeps its letters and digits. */
  lemma {:induction false} TrimTidy(u: string)
    requires PlainSpaces(u) && SingleSpaced(u) && HasAsciiAlnum(u)
    ensures Tidy(Trim(u)) && HasAsciiAlnum(Trim(u))
  {
    var r := Trim(u);
    TrimIsInfix(u);
    InfixTidy(u, r, SkipSpace(u, 0));
    var i :| 0 <= i < |u| && IsAsciiAlnum(u[i]);
    TrimKeepsNonSpace(u, i);
    var j :| 0 <= j < |r| && r[j] == u[i];
    assert IsAsciiAlnum(r[j]);
  }

  /** A falsy input, `null`, `undefined` or `''`, cleans to the empty string. */
  lemma {:induction false} CleanFalsy(text: Option<string>)
    requires text.None? || text.value == ""
    ensures CleanOcrText(text) == ""
  {
  }

  /** Input that holds no ASCII letter or digit at all cleans to the empty string. */
  lemma {:induction false} CleanWithoutAlnum(s: string)
    requires !HasAsciiAlnum(s)
    ensures CleanOcrText(Some(s)) == ""
  {
    if s != "" {
      var c := CollapseSpace(s);
      assert !HasAsciiAlnum(c) by {
        CollapseKeepsAlnum(s);
      }
      var u := DropIsolated(c);
      DropIsolatedSpacing(c);
      DropIsolatedAlnum(c);
      assert '\n' !in u;
      SplitNoSep(u, '\n');
      var one: seq<string> := [u];
      assert one[1..] == [];
    }
  }

  /** Collapsing whitespace neither adds nor removes ASCII letters and digits. */
  lemma {:induction false} CollapseKeepsAlnum(s: string)
    ensures HasAsciiAlnum(CollapseSpace(s)) == HasAsciiAlnum(s)
    decreases |s|
  {
    if s != [] {
      var n := if IsSpace(s[0]) then SkipSpace(s, 0) else 1;
      var head := if IsSpace(s[0]) then " " else [s[0]];
      CollapseKeepsAlnum(s[n..]);
      var rest := CollapseSpace(s[n..]);
      assert CollapseSpace(s) == head + rest;
      AlnumSplit(s, n);
      AlnumSplit(head + rest, 1);
      assert (head + rest)[1..] == rest && (head + rest)[..1] == head;
      assert HasAsciiAlnum(head) == HasAsciiAlnum(s[..n]) by {
        if IsSpace(s[0]) {
          SkipSpaceSkipsSpace(s, 0);
          forall k | 0 <= k < n ensures !IsAsciiAlnum(s[..n][k]) {
            assert s[..n][k] == s[k];
          }
          assert !IsAsciiAlnum(head[0]);
        } else {
          assert s[..n] == head;
        }
      }
    }
  }

  // ---------------------------------------------------------------------------------------------
  // processImage: a content-addressed cache in front of the recogniser
  // ---------------------------------------------------------------------------------------------

  /** What `processImage` returns: the text, and the error message when OCR failed (`error`). */
  datatype OcrResult = OcrResult(text: string, error: Option<string>)

  /**
   * The outside world of one run: reading an image file (an error carries the thrown message),
   * the MD5 hex digest of its bytes, the message `createWorker('eng')` throws for an image (if
   * it throws), tesseract's raw text for a path (or the thrown message), the message
   * `worker.terminate()` throws (if it throws) and whether writing the cache file under a key
   * fails.
   */
  datatype OcrEnv = OcrEnv(
    readFile: string -> Result<seq<uint8>, string>,
    hash: seq<uint8> -> string,
    createWorker: string -> Option<string>,
    recognise: string -> Result<string, string>,
    terminate: string -> Option<string>,
    writeFails: string -> bool)

  /** `generateCacheKey(imagePath)`: the digest of the file's bytes, or the read error. */
  function CacheKey(imagePath: string, env: OcrEnv): Result<string, string> {
    match env.readFile(imagePath)
    case Err(m) => Err(m)
    case Ok(bytes) => Ok(env.hash(bytes))
  }

  /**
   * The cleaned text, when the worker starts and recognition succeeds: what the `try` block
   * holds before the `finally` runs `terminate`.
   */
  function Cleaned(imagePath: string, env: OcrEnv): (r: Option<string>)
    ensures r.Some? <==> env.createWorker(imagePath).None? && env.recognise(imagePath).Ok?
  {
    if env.createWorker(imagePath).Some? then None
    else match env.recognise(imagePath)
      case Err(_) => None
      case Ok(raw) => Some(CleanOcrText(Some(raw)))
  }

  /**
   * The recogniser's outcome for a path: `{text: '', error}` when `createWorker` throws; when
   * `terminate` throws in the `finally`, its message replaces whatever the `try` block
   * produced; otherwise the cleaned text, or `{text: '', error}` when recognition throws.
   */
  function Recognised(imagePath: string, env: OcrEnv): (r: OcrResult)
    ensures r.error.None? ==> Tidy(r.text)
    ensures r.error.Some? ==> r.text == ""
  {
    match env.createWorker(imagePath)
    case Some(m) => OcrResult("", Some(m))
    case None =>
      match env.terminate(imagePath)
      case Some(t) => OcrResult("", Some(t))
      case None =>
        match env.recognise(imagePath)
        case Err(m) => OcrResult("", Some(m))
        case Ok(raw) =>
          CleanOcrTextTidy(Some(raw));
          OcrResult(CleanOcrText(Some(raw)), None)
  }

  /** What `processImage` returns given the cache contents `entries`. */
  function Outcome(entries: map<string, OcrResult>, imagePath: string, useCache: bool, env: OcrEnv): OcrResult {
    if !useCache then Recognised(imagePath, env)
    else match CacheKey(imagePath, env)
      case Err(m) => OcrResult("", Some(m))
      case Ok(key) => if key in entries then entries[key] else Recognised(imagePath, env)
  }

  /**
   * The cache after `processImage`: a miss whose cleaned text is non-empty is written through,
   * before the `finally` runs `terminate`, so the write stands even when `terminate` throws.
   */
  function CacheAfter(entries: map<string, OcrResult>, imagePath: string, useCache: bool, env: OcrEnv)
    : map<string, OcrResult>
  {
    if !useCache then entries
    else match CacheKey(imagePath, env)
      case Err(_) => entries
      case Ok(key) =>
        var cleaned := Cleaned(imagePath, env);
        if key !in entries && cleaned.Some? && cleaned.value != "" && !env.writeFails(key)
        then entries[key := OcrResult(cleaned.value, None)]
        else entries
  }

  /** The `.ocr-cache` directory as an in-memory store from MD5 key to the cached record. */
  class OcrCache {
    var entries: map<string, OcrResult>

    constructor()
      ensures entries == map[]
    {
      entries := map[];
    }

    /** `processImage(imagePath, {useCache})` */
    method ProcessImage(imagePath: string, useCache: bool, env: OcrEnv) returns (result: OcrResult)
      modifies this
      ensures result == Outcome(old(entries), imagePath, useCache, env)
      ensures entries == CacheAfter(old(entries), imagePath, useCache, env)
    {
      if useCache {
        var key := CacheKey(imagePath, env);
        if key.Err? {
          return OcrResult("", Some(key.error));
        }
        if key.value in entries {
          return entries[key.value];
        }
      }
      var workerError := env.createWorker(imagePath);
      if workerError.Some? {
        return OcrResult("", workerError);
      }
      var raw := env.recognise(imagePath);
      if raw.Err? {
        result := OcrResult("", Some(raw.error));
      } else {
        var cleanedText := CleanOcrText(Some(raw.value));
        result := OcrResult(cleanedText, None);
        if useCache && cleanedText != "" {
          var key := CacheKey(imagePath, env);
          if !env.writeFails(key.value) {
            entries := entries[key.value := result];
          }
        }
      }
      var terminateError := env.terminate(imagePath);
      if terminateError.Some? {
        result := OcrResult("", terminateError);
      }
    }
  }

  /** A cache hit is returned as stored: the recogniser is not consulted and nothing is written. */
  lemma {:induction false} CacheHit(entries: map<string, OcrResult>, imagePath: string, env: OcrEnv, other: string -> Result<string, string>)
    requires CacheKey(imagePath, env).Ok? && CacheKey(imagePath, env).value in entries
    ensures Outcome(entries, imagePath, true, env) == entries[CacheKey(imagePath, env).value]
    ensures Outcome(entries, imagePath, true, env.(recognise := other)) == Outcome(entries, imagePath, true, env)
    ensures CacheAfter(entries, imagePath, true, env) == entries
  {
  }

  /**
   * Only a successful, non-empty cleaned text is ever written, under the image's key on a miss.
   * The call returns exactly what it wrote unless `terminate` throws afterwards: then the entry
   * stays written and the call returns `{text: '', error}` with the message of `terminate`.
   */
  lemma {:induction false} WritesOnlyNonEmpty(entries: map<string, OcrResult>, imagePath: string, useCache: bool, env: OcrEnv)
    requires CacheAfter(entries, imagePath, useCache, env) != entries
    ensures useCache && CacheKey(imagePath, env).Ok? && CacheKey(imagePath, env).value !in entries
    ensures Cleaned(imagePath, env).Some? && Cleaned(imagePath, env).value != ""
    ensures Tidy(Cleaned(imagePath, env).value)
    ensures CacheAfter(entries, imagePath, useCache, env) ==
            entries[CacheKey(imagePath, env).value := OcrResult(Cleaned(imagePath, env).value, None)]
    ensures env.terminate(imagePath).None? ==>
            Outcome(entries, imagePath, useCache, env) == OcrResult(Cleaned(imagePath, env).value, None)
    ensures env.terminate(imagePath).Some? ==>
            Outcome(entries, imagePath, useCache, env) == OcrResult("", env.terminate(imagePath))
  {
    CleanOcrTextTidy(Some(env.recognise(imagePath).value));
  }

  /**
   * Write-through: after a call with the cache on that returned text and whose write went
   * through, any later call for an image with the same bytes returns the same record, whatever
   * the recogniser would say this time.
   */
  lemma {:induction false} SameBytesHit(entries: map<string, OcrResult>, imagePath: string, env: OcrEnv,
                                        laterPath: string, later: OcrEnv)
    requires CacheKey(imagePath, env).Ok? && !env.writeFails(CacheKey(imagePath, env).value)
    requires Outcome(entries, imagePath, true, env).text != ""
    requires CacheKey(laterPath, later) == CacheKey(imagePath, env)
    ensures Outcome(CacheAfter(entries, imagePath, true, env), laterPath, true, later) ==
            Outcome(entries, imagePath, true, env)
  {
  }

  /** With the cache off, the store is neither read nor written. */
  lemma {:induction false} CacheOffIgnoresStore(entries: map<string, OcrResult>, other: map<string, OcrResult>,
                                                imagePath: string, env: OcrEnv)
    ensures Outcome(entries, imagePath, false, env) == Outcome(other, imagePath, false, env)
    ensures CacheAfter(entries, imagePath, false, env) == entries
  {
  }

  /** The call is answered from the cache. */
  predicate Hit(entries: map<string, OcrResult>, imagePath: string, useCache: bool, env: OcrEnv) {
    useCache && CacheKey(imagePath, env).Ok? && CacheKey(imagePath, env).value in entries
  }

  /**
   * Away from a cache hit, a failure (of the file read behind the cache key, of `createWorker`,
   * of the recogniser or of `terminate`) yields `{text: '', error: message}`, with the message
   * of `terminate` winning over the recogniser's, and success yields tidy cleaned text; a
   * failing cache write never changes what is returned.
   */
  lemma {:induction false} FailureShape(entries: map<string, OcrResult>, imagePath: string, useCache: bool, env: OcrEnv,
                                        writeFails: string -> bool)
    requires !Hit(entries, imagePath, useCache, env)
    ensures Outcome(entries, imagePath, useCache, env.(writeFails := writeFails)) ==
            Outcome(entries, imagePath, useCache, env)
    ensures var r := Outcome(entries, imagePath, useCache, env);
            r.error.Some? ==> (r.text == "" &&
              ((useCache && CacheKey(imagePath, env).Err? && r.error == Some(CacheKey(imagePath, env).error)) ||
               r.error == env.createWorker(imagePath) ||
               r.error == env.terminate(imagePath) ||
               (env.recognise(imagePath).Err? && r.error == Some(env.recognise(imagePath).error))))
    ensures var r := Outcome(entries, imagePath, useCache, env);
            (!(useCache && CacheKey(imagePath, env).Err?) && env.createWorker(imagePath).None? &&
             env.terminate(imagePath).Some?) ==> r == OcrResult("", env.terminate(imagePath))
    ensures var r := Outcome(entries, imagePath, useCache, env);
            r.error.None? ==> (env.createWorker(imagePath).None? && env.terminate(imagePath).None? &&
              env.recognise(imagePath).Ok? &&
              r.text == CleanOcrText(Some(env.recognise(imagePath).value)) && Tidy(r.text))
  {
  }

  // ---------------------------------------------------------------------------------------------
  // processImagesWithOCR
  // ---------------------------------------------------------------------------------------------

  /** One output record: the input record's own fields (`...img`), then `ocrText` and `ocrError`. */
  datatype OcrRecord<T> = OcrRecord(image: T, ocrText: string, ocrError: Option<string>)

  /** The record pushed for `img` once `processImage` returned `o`. */
  function RecordOf<T>(img: T, o: OcrResult): OcrRecord<T> {
    OcrRecord(img, o.text, o.error)
  }

  /** The records and the cache after processing the first `n` images in order. */
  function RunAll<T>(entries: map<string, OcrResult>, images: seq<T>, pathOf: T -> string, useCache: bool,
                     env: OcrEnv, n: nat): (r: (seq<OcrRecord<T>>, map<string, OcrResult>))
    requires n <= |images|
    ensures |r.0| == n
    ensures forall i :: 0 <= i < n ==> r.0[i].image == images[i]
  {
    if n == 0 then ([], entries)
    else
      var (records, store) := RunAll(entries, images, pathOf, useCache, env, n - 1);
      var o := Outcome(store, pathOf(images[n - 1]), useCache, env);
      (records + [RecordOf(images[n - 1], o)],
       CacheAfter(store, pathOf(images[n - 1]), useCache, env))
  }

  /**
   * `processImagesWithOCR(images, {batchSize, useCache})`: one image at a time, whatever
   * `batchSize` says, every record carrying its input record.
   */
  method ProcessImagesWithOcr<T>(cache: OcrCache, images: seq<T>, pathOf: T -> string, useCache: bool, env: OcrEnv)
    returns (results: seq<OcrRecord<T>>)
    modifies cache
    ensures (results, cache.entries) == RunAll(old(cache.entries), images, pathOf, useCache, env, |images|)
  {
    results := [];
    for i := 0 to |images|
      invariant (results, cache.entries) == RunAll(old(cache.entries), images, pathOf, useCache, env, i)
    {
      var img := images[i];
      var result := cache.ProcessImage(pathOf(img), useCache, env);
      results := results + [OcrRecord(img, result.text, result.error)];
    }
  }

  /** With the cache off, the store is left alone and the records do not depend on what it holds. */
  lemma {:induction false} RunAllUncached<T>(entries: map<string, OcrResult>, other: map<string, OcrResult>,
                                             images: seq<T>, pathOf: T -> string, env: OcrEnv, n: nat)
    requires n <= |images|
    ensures RunAll(entries, images, pathOf, false, env, n).1 == entries
    ensures RunAll(entries, images, pathOf, false, env, n).0 == RunAll(other, images, pathOf, false, env, n).0
  {
    if n > 0 {
      RunAllUncached(entries, other, images, pathOf, env, n - 1);
      CacheOffIgnoresStore(RunAll(entries, images, pathOf, false, env, n - 1).1,
                           RunAll(other, images, pathOf, false, env, n - 1).1, pathOf(images[n - 1]), env);
    }
  }
}
