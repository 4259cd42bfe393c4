/** The image-id helper of src/services/property.service.ts
    (`extractPublicId`), which the update and delete paths use to name the
    hosted image to destroy, and the extraction its callers need. */
module PublicId {
  import opened Common
  import opened Text

  const UploadMarker: string := "/upload/"

  /** A character of the class `[^/.]`. */
  predicate Plain(c: char) {
    c != '/' && c != '.'
  }

  /** The length of the longest run of `Plain` characters from `i`. */
  function PlainRun(s: string, i: nat): (n: nat)
    requires i <= |s|
    ensures i + n <= |s|
    ensures forall k :: i <= k < i + n ==> Plain(s[k])
    ensures i + n < |s| ==> !Plain(s[i + n])
    decreases |s| - i
  {
    if i < |s| && Plain(s[i]) then 1 + PlainRun(s, i + 1) else 0
  }

  /** The length of the longest run of decimal digits from `i`. */
  function DigitRun(s: string, i: nat): (n: nat)
    requires i <= |s|
    ensures i + n <= |s|
    ensures forall k :: i <= k < i + n ==> IsDigit(s[k])
    ensures i + n < |s| ==> !IsDigit(s[i + n])
    decreases |s| - i
  {
    if i < |s| && IsDigit(s[i]) then 1 + DigitRun(s, i + 1) else 0
  }

  /** `"/upload/"` occurs at `p`. */
  predicate UploadAt(s: string, p: nat) {
    p + |UploadMarker| <= |s| && s[p..p + |UploadMarker|] == UploadMarker
  }

  /** The regular expression `\/upload\/(?:v\d+\/)?([^/.]+)` anchored where
      the marker occurs at `p`. The optional version group is tried first;
      `\d+` followed by `/` can only take the whole digit run, and the
      capture is greedy with nothing after it, so the only backtracking
      that matters is dropping the version group and capturing from just
      after the marker. */
  function MatchAt(s: string, p: nat): (r: Option<string>)
    requires UploadAt(s, p)
    ensures r.Some? <==> p + 8 < |s| && Plain(s[p + 8])
    ensures r.Some? ==> |r.value| >= 1 && forall k :: 0 <= k < |r.value| ==> Plain(r.value[k])
  {
    var q := p + 8;
    var d := if q < |s| && s[q] == 'v' then DigitRun(s, q + 1) else 0;
    if d >= 1 && q + 1 + d < |s| && s[q + 1 + d] == '/' && PlainRun(s, q + 2 + d) >= 1 then
      Some(s[q + 2 + d..q + 2 + d + PlainRun(s, q + 2 + d)])
    else if q < |s| && Plain(s[q]) then
      Some(s[q..q + PlainRun(s, q)])
    else None
  }

  /** The leftmost match at or after position `p`. */
  function Search(s: string, p: nat): (r: Option<string>)
    decreases |s| - p
  {
    if p + |UploadMarker| > |s| then None
    else if UploadAt(s, p) && MatchAt(s, p).Some? then MatchAt(s, p)
    else Search(s, p + 1)
  }

  /** `extractPublicId(url)`: the first capture of the leftmost match, or
      null (`None`). */
  function ExtractPublicId(url: string): (r: Option<string>)
    ensures r.Some? ==> |r.value| >= 1 && forall k :: 0 <= k < |r.value| ==> Plain(r.value[k])
  {
    SearchYieldsPlain(url, 0);
    Search(url, 0)
  }

  lemma {:induction false} SearchYieldsPlain(s: string, p: nat)
    ensures var r := Search(s, p);
      r.Some? ==> |r.value| >= 1 && forall k :: 0 <= k < |r.value| ==> Plain(r.value[k])
    decreases |s| - p
  {
    if p + |UploadMarker| <= |s| && !(UploadAt(s, p) && MatchAt(s, p).Some?) {
      SearchYieldsPlain(s, p + 1);
    }
  }

  /** A match exists at `p` exactly when the marker sits there and is
      followed by a `[^/.]` character. */
  ghost predicate MatchableAt(s: string, p: nat) {
    UploadAt(s, p) && p + 8 < |s| && Plain(s[p + 8])
  }

  /** The search from `p` fails exactly when no position from `p` on is
      matchable. */
  lemma {:induction false} SearchNoneIff(s: string, p: nat)
    ensures Search(s, p).None? <==> forall q :: p <= q < |s| ==> !MatchableAt(s, q)
    decreases |s| - p
  {
    if p + |UploadMarker| <= |s| {
      SearchNoneIff(s, p + 1);
      MatchableIff(s, p);
    }
  }

  lemma MatchableIff(s: string, p: nat)
    ensures MatchableAt(s, p) <==> UploadAt(s, p) && MatchAt(s, p).Some?
  {
  }

  /** Positions before `q` that are not matchable are skipped. */
  lemma {:induction false} SearchSkips(s: string, p: nat, q: nat)
    requires p <= q <= |s|
    requires forall k :: p <= k < q ==> !MatchableAt(s, k)
    ensures Search(s, p) == Search(s, q)
    decreases q - p
  {
    if p < q {
      MatchableIff(s, p);
      SearchSkips(s, p + 1, q);
    }
  }

  /** `null` exactly when no "/upload/" is followed by a `[^/.]` character. */
  lemma NoneIffNoMatchable(url: string)
    ensures ExtractPublicId(url).None? <==> forall q :: 0 <= q < |url| ==> !MatchableAt(url, q)
  {
    SearchNoneIff(url, 0);
  }

  /** The URL a versioned upload receives: `base` (which holds no earlier
      marker), the marker, `v<digits>/`, then `path`. */
  function VersionedUrl(base: string, version: string, path: string): string {
    base + UploadMarker + "v" + version + "/" + path
  }

  /** The marker does not occur in `base + "/upload/"` before `base` ends. */
  ghost predicate NoEarlierMarker(base: string) {
    forall p :: 0 <= p < |base| ==> !UploadAt(base + UploadMarker, p)
  }

  /** A run of exactly `n` digits at `i`. */
  lemma DigitRunIs(s: string, i: nat, n: nat)
    requires i + n <= |s|
    requires forall k :: i <= k < i + n ==> IsDigit(s[k])
    requires i + n < |s| ==> !IsDigit(s[i + n])
    ensures DigitRun(s, i) == n
  {
    var d := DigitRun(s, i);
    assert !(d < n);
    assert !(d > n);
  }

  /** A run of exactly `n` plain characters at `i`. */
  lemma PlainRunIs(s: string, i: nat, n: nat)
    requires i + n <= |s|
    requires forall k :: i <= k < i + n ==> Plain(s[k])
    requires i + n < |s| ==> !Plain(s[i + n])
    ensures PlainRun(s, i) == n
  {
    var d := PlainRun(s, i);
    assert !(d < n);
    assert !(d > n);
  }

  /** Whether the marker occurs at `k` depends only on the eight characters there. */
  lemma UploadAtPrefix(x: string, y: string, k: nat)
    requires k + 8 <= |x|
    ensures UploadAt(x + y, k) <==> UploadAt(x, k)
  {
    assert (x + y)[k..k + 8] == x[k..k + 8];
  }

  /** Nothing before the end of `base` is matchable in `base + marker + rest`. */
  lemma SkipBase(base: string, rest: string)
    requires NoEarlierMarker(base)
    ensures var s := base + UploadMarker + rest;
      UploadAt(s, |base|) && Search(s, 0) == Search(s, |base|)
  {
    var bu := base + UploadMarker;
    var s := bu + rest;
    forall k | 0 <= k < |base| ensures !MatchableAt(s, k) {
      UploadAtPrefix(bu, rest, k);
    }
    SearchSkips(s, 0, |base|);
    UploadAtPrefix(bu, rest, |base|);
    assert bu[|base|..|base| + 8] == UploadMarker;
  }

  /** Where the parts of `v<version>/<segment><tail>` sit. */
  lemma VersionLayout(r: string, version: string, segment: string, tail: string)
    requires r == "v" + version + "/" + segment + tail
    ensures |r| == 2 + |version| + |segment| + |tail|
    ensures r[0] == 'v' && r[1 + |version|] == '/'
    ensures forall k :: 0 <= k < |version| ==> r[1 + k] == version[k]
    ensures forall k :: 0 <= k < |segment| ==> r[2 + |version| + k] == segment[k]
    ensures forall k :: 0 <= k < |tail| ==> r[2 + |version| + |segment| + k] == tail[k]
  {
  }

  /** The version alternative of the expression, in terms of the two runs. */
  lemma MatchAtVersion(s: string, p: nat, v: nat, n: nat)
    requires UploadAt(s, p) && p + 8 < |s| && s[p + 8] == 'v'
    requires p + 9 <= |s| && DigitRun(s, p + 9) == v && v >= 1
    requires p + 9 + v < |s| && s[p + 9 + v] == '/'
    requires PlainRun(s, p + 10 + v) == n && n >= 1
    ensures MatchAt(s, p) == Some(s[p + 10 + v..p + 10 + v + n])
  {
  }

  /** The digit run after "v" is the version. */
  lemma VersionDigits(s: string, q: nat, version: string, rest: string)
    requires q <= |s| && s[q..] == "v" + version + "/" + rest
    requires |version| >= 1 && AllDigits(version)
    ensures q + 1 + |version| < |s| && s[q] == 'v' && s[q + 1 + |version|] == '/'
    ensures DigitRun(s, q + 1) == |version|
  {
    var r := s[q..];
    var v := |version|;
    assert r[0] == 'v' && r[1 + v] == '/';
    assert forall k :: 0 <= k < v ==> r[1 + k] == version[k];
    assert forall k :: q + 1 <= k < q + 1 + v ==> IsDigit(s[k]) by {
      forall k | q + 1 <= k < q + 1 + v ensures IsDigit(s[k]) {
        assert s[k] == r[1 + (k - q - 1)];
      }
    }
    assert s[q] == r[0] && s[q + 1 + v] == r[1 + v];
    DigitRunIs(s, q + 1, v);
  }

  /** What follows `v<version>/`. */
  lemma AfterVersion(s: string, q: nat, version: string, rest: string)
    requires q <= |s| && s[q..] == "v" + version + "/" + rest
    ensures q + 2 + |version| <= |s| && s[q + 2 + |version|..] == rest
  {
    assert s[q..][2 + |version|..] == rest;
  }

  /** The plain run at `start` is the segment. */
  lemma SegmentRun(s: string, start: nat, segment: string, tail: string)
    requires start <= |s| && s[start..] == segment + tail
    requires forall k :: 0 <= k < |segment| ==> Plain(segment[k])
    requires tail == [] || !Plain(tail[0])
    ensures start + |segment| <= |s|
    ensures PlainRun(s, start) == |segment|
    ensures s[start..start + |segment|] == segment
  {
    var r := s[start..];
    var n := |segment|;
    assert forall k :: 0 <= k < n ==> r[k] == segment[k];
    assert forall k :: start <= k < start + n ==> Plain(s[k]) by {
      forall k | start <= k < start + n ensures Plain(s[k]) {
        assert s[k] == r[k - start];
      }
    }
    assert start + n < |s| ==> s[start + n] == r[n] == tail[0];
    PlainRunIs(s, start, n);
    assert s[start..start + n] == r[..n];
  }

  /** After the marker, `v<digits>/segment` followed by a non-plain
      character (or the end) captures the segment. */
  lemma MatchVersioned(s: string, p: nat, version: string, segment: string, tail: string)
    requires UploadAt(s, p)
    requires s[p + 8..] == "v" + version + "/" + (segment + tail)
    requires |version| >= 1 && AllDigits(version)
    requires |segment| >= 1 && forall k :: 0 <= k < |segment| ==> Plain(segment[k])
    requires tail == [] || !Plain(tail[0])
    ensures MatchAt(s, p) == Some(segment)
  {
    var q := p + 8;
    var v := |version|;
    VersionDigits(s, q, version, segment + tail);
    var start := q + 2 + v;
    AfterVersion(s, q, version, segment + tail);
    SegmentRun(s, start, segment, tail);
    MatchAtVersion(s, p, v, |segment|);
  }

  /** As written, the capture is the first segment after the version: the
      id itself when the image sits at the top level, but the first folder
      name when it was uploaded into a folder. */
  lemma FirstSegmentAfterVersion(base: string, version: string, segment: string, tail: string)
    requires NoEarlierMarker(base)
    requires |version| >= 1 && AllDigits(version)
    requires |segment| >= 1 && forall k :: 0 <= k < |segment| ==> Plain(segment[k])
    requires tail == [] || !Plain(tail[0])
    ensures ExtractPublicId(VersionedUrl(base, version, segment + tail)) == Some(segment)
  {
    var rest := "v" + version + "/" + (segment + tail);
    var s := base + UploadMarker + rest;
    assert VersionedUrl(base, version, segment + tail) == s;
    SkipBase(base, rest);
    assert s[|base| + 8..] == rest;
    MatchVersioned(s, |base|, version, segment, tail);
  }

  /** The fallback alternative once the version alternative has failed. */
  lemma MatchAtFallback(s: string, p: nat, v: nat, m: nat)
    requires UploadAt(s, p) && p + 8 < |s| && s[p + 8] == 'v'
    requires p + 9 <= |s| && DigitRun(s, p + 9) == v
    requires p + 9 + v < |s| && s[p + 9 + v] == '/'
    requires PlainRun(s, p + 10 + v) == 0
    requires PlainRun(s, p + 8) == m
    ensures MatchAt(s, p) == Some(s[p + 8..p + 8 + m])
  {
  }

  /** Nothing plain starts right after `v<digits>/` when the tail does not. */
  lemma EmptyTailRun(s: string, q: nat, version: string, tail: string)
    requires q <= |s| && s[q..] == "v" + version + "/" + tail
    requires tail == [] || !Plain(tail[0])
    ensures q + 2 + |version| <= |s| && PlainRun(s, q + 2 + |version|) == 0
  {
    var v := |version|;
    AfterVersion(s, q, version, tail);
    assert q + 2 + v < |s| ==> s[q + 2 + v] == tail[0];
    PlainRunIs(s, q + 2 + v, 0);
  }

  /** `v<digits>` followed by "/" is a plain run of its own length. */
  lemma VersionPlainRun(s: string, q: nat, version: string)
    requires q + 1 + |version| < |s| && s[q] == 'v' && s[q + 1 + |version|] == '/'
    requires DigitRun(s, q + 1) == |version|
    ensures PlainRun(s, q) == 1 + |version|
  {
    var v := |version|;
    forall k | q <= k < q + 1 + v ensures Plain(s[k]) {
      if k > q { assert IsDigit(s[k]); }
    }
    PlainRunIs(s, q, 1 + v);
  }

  lemma MatchBacktrack(s: string, p: nat, version: string, tail: string)
    requires UploadAt(s, p)
    requires s[p + 8..] == "v" + version + "/" + tail
    requires |version| >= 1 && AllDigits(version)
    requires tail == [] || !Plain(tail[0])
    ensures MatchAt(s, p) == Some("v" + version)
  {
    var q := p + 8;
    var v := |version|;
    VersionDigits(s, q, version, tail);
    EmptyTailRun(s, q, version, tail);
    VersionPlainRun(s, q, version);
    MatchAtFallback(s, p, v, 1 + v);
    assert s[q..q + 1 + v] == s[q..][..1 + v] == "v" + version;
  }

  /** When nothing plain follows `v<digits>/`, the version group is given
      up and the capture is `v<digits>` itself. */
  lemma BacktracksToVersion(base: string, version: string, tail: string)
    requires NoEarlierMarker(base)
    requires |version| >= 1 && AllDigits(version)
    requires tail == [] || !Plain(tail[0])
    ensures ExtractPublicId(base + UploadMarker + "v" + version + "/" + tail) == Some("v" + version)
  {
    var rest := "v" + version + "/" + tail;
    var s := base + UploadMarker + rest;
    assert s == base + UploadMarker + "v" + version + "/" + tail;
    SkipBase(base, rest);
    assert s[|base| + 8..] == rest;
    MatchBacktrack(s, |base|, version, tail);
  }

  /** `segment` followed by `tail` reads as a version group: "v" and digits,
      then "/" and a `[^/.]` character. */
  predicate VersionThenPath(segment: string, tail: string) {
    && |segment| >= 2 && segment[0] == 'v' && AllDigits(segment[1..])
    && |tail| >= 2 && tail[0] == '/' && Plain(tail[1])
  }

  /** After the marker, a segment that does not open a version group is
      captured whole by the fallback alternative. */
  lemma MatchUnversioned(s: string, p: nat, segment: string, tail: string)
    requires UploadAt(s, p)
    requires s[p + 8..] == segment + tail
    requires |segment| >= 1 && forall k :: 0 <= k < |segment| ==> Plain(segment[k])
    requires tail == [] || !Plain(tail[0])
    requires !VersionThenPath(segment, tail)
    ensures MatchAt(s, p) == Some(segment)
  {
    var q := p + 8;
    var n := |segment|;
    SegmentRun(s, q, segment, tail);
    assert s[q..] == segment + tail;
    assert s[q] == segment[0];
    if s[q] == 'v' {
      var d := DigitRun(s, q + 1);
      assert d <= n - 1 by {
        if q + n < |s| {
          assert !IsDigit(s[q + n]);
        }
      }
      if d < n - 1 {
        assert Plain(s[q + 1 + d]);
      } else {
        assert AllDigits(segment[1..]) by {
          forall k | 0 <= k < n - 1 ensures IsDigit(segment[1..][k]) {
            assert segment[1..][k] == s[q..][1 + k] == s[q + 1 + k];
          }
        }
        if n >= 2 && |tail| >= 2 && tail[0] == '/' {
          assert !Plain(tail[1]);
          assert s[q + n + 1] == s[q..][n + 1] == tail[1];
          PlainRunIs(s, q + n + 1, 0);
        }
      }
    }
  }

  /** Without a version group, the first segment after the marker is
      captured; this includes segments that begin with "v" but are not
      "v<digits>" followed by a further path segment. */
  lemma UnversionedUpload(base: string, segment: string, tail: string)
    requires NoEarlierMarker(base)
    requires |segment| >= 1 && forall k :: 0 <= k < |segment| ==> Plain(segment[k])
    requires tail == [] || !Plain(tail[0])
    requires !VersionThenPath(segment, tail)
    ensures ExtractPublicId(base + UploadMarker + segment + tail) == Some(segment)
  {
    var s := base + UploadMarker + (segment + tail);
    assert s == base + UploadMarker + segment + tail;
    SkipBase(base, segment + tail);
    var q := |base| + 8;
    assert s[q..] == segment + tail;
    MatchUnversioned(s, |base|, segment, tail);
  }

  /** Concretely, an unversioned file whose name starts with "v". */
  lemma VideoUploadIsCaptured()
    ensures ExtractPublicId("/upload/video.jpg") == Some("video")
  {
    UnversionedUpload("", "video", ".jpg");
    assert "" + UploadMarker + "video" + ".jpg" == "/upload/video.jpg";
  }

  /** Concretely, for an image uploaded into the "properties-ashinity"
      folder the helper yields the folder name, not the image's id. */
  lemma FolderUploadYieldsFolder(base: string, version: string, id: string, ext: string)
    requires NoEarlierMarker(base)
    requires |version| >= 1 && AllDigits(version)
    ensures ExtractPublicId(VersionedUrl(base, version, "properties-ashinity/" + id + "." + ext))
            == Some("properties-ashinity")
  {
    var path := "properties-ashinity/" + id + "." + ext;
    assert path == "properties-ashinity" + ("/" + id + "." + ext);
    FirstSegmentAfterVersion(base, version, "properties-ashinity", "/" + id + "." + ext);
  }

  /** The position just after the last `c` in `s`, or 0 when there is none. */
  function AfterLast(s: string, c: char): (k: nat)
    ensures k <= |s|
    ensures k > 0 ==> s[k - 1] == c
    ensures c !in s[k..]
  {
    if |s| == 0 then 0
    else if s[|s| - 1] == c then |s|
    else
      var k := AfterLast(s[..|s| - 1], c);
      assert s[k..] == s[..|s| - 1][k..] + [s[|s| - 1]];
      k
  }

  /** The id the destroy calls need: the last path segment without its
      extension, so that the folder prefix the callers add in front of it
      names the uploaded image. `None` when that is empty. */
  function ImageId(url: string): (r: Option<string>)
    ensures r.Some? ==> |r.value| >= 1 && '/' !in r.value && '.' !in r.value
  {
    var last := url[AfterLast(url, '/')..];
    var stem := TakeUntil(last, '.');
    if |stem| == 0 then None else Some(stem)
  }

  /** Whatever lies before the final slash, folders included, the
      corrected extraction returns the image's own id. */
  lemma ImageIdOfUpload(prefix: string, id: string, ext: string)
    requires |id| >= 1 && '/' !in id && '.' !in id && '/' !in ext
    ensures ImageId(prefix + "/" + id + "." + ext) == Some(id)
  {
    var url := prefix + "/" + id + "." + ext;
    var k := AfterLast(url, '/');
    var j := |prefix| + 1;
    assert url[j - 1] == '/';
    assert url[j..] == id + "." + ext;
    assert forall i :: j <= i < |url| ==> url[i] != '/' by {
      forall i | j <= i < |url| ensures url[i] != '/' {
        if i < j + |id| { assert url[i] == id[i - j]; }
        else if i > j + |id| { assert url[i] == ext[i - j - |id| - 1]; }
      }
    }
    assert forall i :: k <= i < |url| ==> url[i] != '/' by {
      forall i | k <= i < |url| ensures url[i] != '/' {
        assert url[i] == url[k..][i - k];
      }
    }
    assert !(k < j);
    assert !(k > j);
    assert url[k..] == id + ("." + ext);
    TakeUntilPrefix(id, "." + ext, '.');
  }

  /** A URL of the folder uploads splits at the slash after the folder. */
  lemma FolderUrlShape(pre: string, id: string, ext: string)
    ensures pre + ("properties-ashinity/" + id + "." + ext) == pre + "properties-ashinity" + "/" + id + "." + ext
  {
    var folder := "properties-ashinity";
    var tail := "/" + id + "." + ext;
    assert "properties-ashinity/" + id + "." + ext == folder + tail;
    assert pre + folder + "/" + id + "." + ext == pre + (folder + tail);
  }

  /** For the folder uploads the service makes, the as-written helper and
      the corrected one disagree: the destroy call would name
      "properties-ashinity/properties-ashinity" instead of the image. */
  lemma FolderUploadsDisagree(base: string, version: string, id: string, ext: string)
    requires NoEarlierMarker(base)
    requires |version| >= 1 && AllDigits(version)
    requires |id| >= 1 && '/' !in id && '.' !in id && '/' !in ext
    ensures var url := VersionedUrl(base, version, "properties-ashinity/" + id + "." + ext);
      && ExtractPublicId(url) == Some("properties-ashinity")
      && ImageId(url) == Some(id)
  {
    FolderUploadYieldsFolder(base, version, id, ext);
    var pre := base + UploadMarker + "v" + version + "/";
    FolderUrlShape(pre, id, ext);
    ImageIdOfUpload(pre + "properties-ashinity", id, ext);
  }
}
