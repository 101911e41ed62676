/**
  The build hook (extra_script.py) that turns each web asset into a C header
  before compilation: the asset's file name becomes a C identifier by
  collapsing every run of non-alphanumeric characters into one underscore,
  the header is written next to the asset, and it is regenerated only when
  it is missing or older than the asset.

  File-system access is a parameter: whether a file exists, its
  modification time, and the bytes `bin2c` embeds (the asset after gzip
  compression, which is outside the model).
 */
module IncludeScript {
  import opened Basics
  import Bin2C

  /** The class `[0-9a-zA-Z]` of the pattern: ASCII digits and letters only. */
  predicate IsAlnum(c: char) {
    '0' <= c <= '9' || 'a' <= c <= 'z' || 'A' <= c <= 'Z'
  }

  predicate AllAlnum(w: string) {
    forall i :: 0 <= i < |w| ==> IsAlnum(w[i])
  }

  /** The length of the leading run that `[^0-9a-zA-Z]+` matches (0 if none). */
  function OtherRun(s: string): (n: nat)
    ensures n <= |s|
    ensures forall i :: 0 <= i < n ==> !IsAlnum(s[i])
    ensures n == |s| || IsAlnum(s[n])
    decreases |s|
  {
    if |s| == 0 || IsAlnum(s[0]) then 0 else 1 + OtherRun(s[1..])
  }

  /** `re.sub('[^0-9a-zA-Z]+', '_', input)`: alphanumerics are copied, and each
      maximal run of other characters is replaced by a single underscore. */
  function Sanitize(s: string): (r: string)
    ensures forall i :: 0 <= i < |r| ==> IsAlnum(r[i]) || r[i] == '_'
    ensures |r| == 0 <==> |s| == 0
    ensures |s| > 0 && IsAlnum(s[0]) ==> r[0] == s[0]
    ensures |s| > 0 && !IsAlnum(s[0]) ==> r[0] == '_'
    ensures |r| <= |s|
    decreases |s|
  {
    if |s| == 0 then ""
    else if IsAlnum(s[0]) then [s[0]] + Sanitize(s[1..])
    else
      var n := OtherRun(s);
      "_" + Sanitize(s[n..])
  }

  /** No two underscores are adjacent. */
  predicate SingleUnderscores(r: string) {
    forall i :: 0 <= i < |r| - 1 && r[i] == '_' ==> r[i + 1] != '_'
  }

  /** The alphanumeric characters of `s`, in order. */
  function Alnums(s: string): (r: string)
    ensures |r| <= |s|
    decreases |s|
  {
    if |s| == 0 then ""
    else if IsAlnum(s[0]) then [s[0]] + Alnums(s[1..])
    else Alnums(s[1..])
  }

  /** Each underscore the substitution writes is followed by an alphanumeric
      (or ends the name), so underscores never pile up. */
  lemma {:induction false} SanitizeSingleUnderscores(s: string)
    ensures SingleUnderscores(Sanitize(s))
    decreases |s|
  {
    if |s| > 0 {
      var r := Sanitize(s);
      if IsAlnum(s[0]) {
        var rest := Sanitize(s[1..]);
        SanitizeSingleUnderscores(s[1..]);
        assert r == [s[0]] + rest;
        forall i | 0 <= i < |r| - 1 && r[i] == '_' ensures r[i + 1] != '_' {
          assert i >= 1;
          assert r[i] == rest[i - 1] && r[i + 1] == rest[i];
        }
      } else {
        var n := OtherRun(s);
        var rest := Sanitize(s[n..]);
        SanitizeSingleUnderscores(s[n..]);
        assert r == "_" + rest;
        assert |rest| > 0 ==> IsAlnum(rest[0]);
        forall i | 0 <= i < |r| - 1 && r[i] == '_' ensures r[i + 1] != '_' {
          if i >= 1 {
            assert r[i] == rest[i - 1] && r[i + 1] == rest[i];
          }
        }
      }
    }
  }

  lemma {:induction false} AlnumsSkipOthers(s: string, n: nat)
    requires n <= |s|
    requires forall i :: 0 <= i < n ==> !IsAlnum(s[i])
    ensures Alnums(s) == Alnums(s[n..])
    decreases n
  {
    if n > 0 {
      AlnumsSkipOthers(s[1..], n - 1);
      assert s[1..][n - 1..] == s[n..];
    }
  }

  /** The substitution keeps every alphanumeric character, in order, and adds none. */
  lemma {:induction false} SanitizeKeepsAlnums(s: string)
    ensures Alnums(Sanitize(s)) == Alnums(s)
    decreases |s|
  {
    if |s| > 0 {
      if IsAlnum(s[0]) {
        var rest := Sanitize(s[1..]);
        SanitizeKeepsAlnums(s[1..]);
        assert ([s[0]] + rest)[1..] == rest;
      } else {
        var n := OtherRun(s);
        var rest := Sanitize(s[n..]);
        SanitizeKeepsAlnums(s[n..]);
        assert ("_" + rest)[1..] == rest;
        AlnumsSkipOthers(s, n);
      }
    }
  }

  /** Character by character: alphanumerics kept, everything else an underscore. */
  function Replace(s: string): (r: string)
    ensures |r| == |s|
    ensures forall i :: 0 <= i < |s| ==> r[i] == if IsAlnum(s[i]) then s[i] else '_'
    decreases |s|
  {
    if |s| == 0 then "" else [if IsAlnum(s[0]) then s[0] else '_'] + Replace(s[1..])
  }

  /** Collapse each run of underscores to one. */
  function Squeeze(t: string): (r: string)
    ensures |r| <= |t|
    decreases |t|
  {
    if |t| == 0 then ""
    else if |t| >= 2 && t[0] == '_' && t[1] == '_' then Squeeze(t[1..])
    else [t[0]] + Squeeze(t[1..])
  }

  lemma ReplaceTail(s: string)
    requires |s| > 0
    ensures Replace(s)[1..] == Replace(s[1..])
  {
  }

  /** A leading run of other characters squeezes to one underscore. */
  lemma {:induction false} SqueezeOthers(s: string)
    requires |s| > 0 && !IsAlnum(s[0])
    ensures Squeeze(Replace(s)) == "_" + Squeeze(Replace(s[OtherRun(s)..]))
    decreases |s|
  {
    var t := Replace(s);
    ReplaceTail(s);
    if |s| == 1 || IsAlnum(s[1]) {
      assert OtherRun(s) == 1;
    } else {
      SqueezeOthers(s[1..]);
      var m := OtherRun(s[1..]);
      assert OtherRun(s) == 1 + m;
      assert s[1..][m..] == s[1 + m..];
    }
  }

  /** The substitution is the same as replacing every other character by an
      underscore and then collapsing runs of underscores. */
  lemma {:induction false} SanitizeIsSqueezedReplace(s: string)
    ensures Sanitize(s) == Squeeze(Replace(s))
    decreases |s|
  {
    if |s| > 0 {
      ReplaceTail(s);
      if IsAlnum(s[0]) {
        SanitizeIsSqueezedReplace(s[1..]);
      } else {
        SqueezeOthers(s);
        SanitizeIsSqueezedReplace(s[OtherRun(s)..]);
      }
    }
  }

  /** A name made of alphanumerics and single underscores is left as it is. */
  lemma {:induction false} SanitizeFixes(t: string)
    requires forall i :: 0 <= i < |t| ==> IsAlnum(t[i]) || t[i] == '_'
    requires SingleUnderscores(t)
    ensures Sanitize(t) == t
    decreases |t|
  {
    if |t| > 0 {
      assert SingleUnderscores(t[1..]) by {
        forall i | 0 <= i < |t[1..]| - 1 && t[1..][i] == '_' ensures t[1..][i + 1] != '_' {
          assert t[1..][i] == t[i + 1] && t[1..][i + 1] == t[i + 2];
        }
      }
      SanitizeFixes(t[1..]);
      if !IsAlnum(t[0]) {
        assert OtherRun(t) == 1 by {
          assert |t| > 1 ==> t[1] != '_';
        }
      }
      assert t == [t[0]] + t[1..];
    }
  }

  /** Sanitizing twice is sanitizing once. */
  lemma SanitizeIdempotent(s: string)
    ensures Sanitize(Sanitize(s)) == Sanitize(s)
  {
    SanitizeSingleUnderscores(s);
    SanitizeFixes(Sanitize(s));
  }

  /** A prefix of alphanumerics is copied. */
  lemma {:induction false} SanitizeAlnumPrefix(a: string, b: string)
    requires AllAlnum(a)
    ensures Sanitize(a + b) == a + Sanitize(b)
    decreases |a|
  {
    if |a| > 0 {
      assert (a + b)[1..] == a[1..] + b;
      SanitizeAlnumPrefix(a[1..], b);
      assert a == [a[0]] + a[1..];
    } else {
      assert a + b == b;
    }
  }

  /** A run of other characters before an alphanumeric becomes one underscore. */
  lemma SanitizeOtherPrefix(o: string, b: string)
    requires |o| > 0 && forall i :: 0 <= i < |o| ==> !IsAlnum(o[i])
    requires |b| > 0 && IsAlnum(b[0])
    ensures Sanitize(o + b) == "_" + Sanitize(b)
  {
    assert OtherRun(o + b) == |o| by {
      OtherRunPrefix(o, b);
    }
    assert (o + b)[|o|..] == b;
  }

  lemma {:induction false} OtherRunPrefix(o: string, b: string)
    requires forall i :: 0 <= i < |o| ==> !IsAlnum(o[i])
    requires |b| > 0 && IsAlnum(b[0])
    ensures OtherRun(o + b) == |o|
    decreases |o|
  {
    if |o| > 0 {
      assert (o + b)[1..] == o[1..] + b;
      OtherRunPrefix(o[1..], b);
    } else {
      assert o + b == b;
    }
  }

  /** `'src/' + input`: the asset's path. */
  function InputPath(input: string): (p: string)
    ensures |p| == |input| + 4 && p[4..] == input
    ensures p[..4] == "src/"
  {
    "src/" + input
  }

  /** `'src/' + varname + '.h'`: the generated header's path. */
  function OutputPath(input: string): (p: string)
    ensures |p| == |Sanitize(input)| + 6
    ensures p[..4] == "src/"
    ensures p[4..|p| - 2] == Sanitize(input)
    ensures p[|p| - 2..] == ".h"
  {
    "src/" + Sanitize(input) + ".h"
  }

  /** A path is the asset's path exactly when it is `src/` followed by the asset name. */
  lemma InputPathExactly(input: string, p: string)
    ensures p == InputPath(input) <==> |p| >= 4 && p[..4] == "src/" && p[4..] == input
  {
  }

  /** A path is the header's path exactly when it is `src/`, the sanitized
      name and `.h`: the header path determines the variable name. */
  lemma OutputPathExactly(input: string, p: string)
    ensures p == OutputPath(input) <==>
            |p| >= 6 && p[..4] == "src/" && p[4..|p| - 2] == Sanitize(input) && p[|p| - 2..] == ".h"
  {
  }

  /** An alphanumeric word is left as it is. */
  lemma SanitizeWord(word: string)
    requires AllAlnum(word)
    ensures Sanitize(word) == word
  {
    SanitizeAlnumPrefix(word, "");
    assert word + "" == word;
  }

  /** A word, a run of other characters and a remainder that starts with an
      alphanumeric: the word is kept and the run becomes one underscore. */
  lemma SanitizeStep(word: string, sep: string, rest: string)
    requires AllAlnum(word)
    requires |sep| > 0 && forall i :: 0 <= i < |sep| ==> !IsAlnum(sep[i])
    requires |rest| > 0 && IsAlnum(rest[0])
    ensures Sanitize(word + (sep + rest)) == word + ("_" + Sanitize(rest))
  {
    SanitizeAlnumPrefix(word, sep + rest);
    SanitizeOtherPrefix(sep, rest);
  }

  /** The shape of the bundled minified scripts, `base-vX.Y.Z.min.js`: every
      separator becomes an underscore. */
  lemma MinifiedScriptName(base: string, v: string, b: string, c: string, m: string, e: string)
    requires |base| > 0 && |v| > 0 && |b| > 0 && |c| > 0 && |m| > 0 && |e| > 0
    requires AllAlnum(base) && AllAlnum(v) && AllAlnum(b) && AllAlnum(c) && AllAlnum(m) && AllAlnum(e)
    ensures Sanitize(base + ("-" + (v + ("." + (b + ("." + (c + ("." + (m + ("." + e)))))))))) ==
            base + ("_" + (v + ("_" + (b + ("_" + (c + ("_" + (m + ("_" + e)))))))))
  {
    var s1 := m + ("." + e);
    assert Sanitize(s1) == m + ("_" + e) by {
      SanitizeWord(e);
      SanitizeStep(m, ".", e);
    }
    var s2 := c + ("." + s1);
    assert Sanitize(s2) == c + ("_" + Sanitize(s1)) by {
      SanitizeStep(c, ".", s1);
    }
    var s3 := b + ("." + s2);
    assert Sanitize(s3) == b + ("_" + Sanitize(s2)) by {
      SanitizeStep(b, ".", s2);
    }
    var s4 := v + ("." + s3);
    assert Sanitize(s4) == v + ("_" + Sanitize(s3)) by {
      SanitizeStep(v, ".", s3);
    }
    SanitizeStep(base, "-", s4);
  }

  /** The chart library's header name (src/rocket-telemetry.cpp:16).
      The name is a parameter pinned by the `requires`, so Dafny does not
      unfold `Sanitize` over a literal in the contract: without the steps
      below the proof then fails quickly instead of running out of resource. */
  lemma ChartAssetName(input: string)
    requires input == "chart-v3.9.1.min.js"
    ensures Sanitize(input) == "chart_v3_9_1_min_js"
    ensures OutputPath(input) == "src/chart_v3_9_1_min_js.h"
  {
    ChartSpelling();
    MinifiedScriptName("chart", "v3", "9", "1", "min", "js");
  }

  lemma ChartSpelling()
    ensures "chart-v3.9.1.min.js" ==
            "chart" + ("-" + ("v3" + ("." + ("9" + ("." + ("1" + ("." + ("min" + ("." + "js")))))))))
    ensures "chart_v3_9_1_min_js" ==
            "chart" + ("_" + ("v3" + ("_" + ("9" + ("_" + ("1" + ("_" + ("min" + ("_" + "js")))))))))
    ensures "src/" + "chart_v3_9_1_min_js" + ".h" == "src/chart_v3_9_1_min_js.h"
  {
  }

  /** The file-saver library's header name (src/rocket-telemetry.cpp:15).
      The name is a parameter pinned by the `requires`, so Dafny does not
      unfold `Sanitize` over a literal in the contract: without the steps
      below the proof then fails quickly instead of running out of resource. */
  lemma FileSaverAssetName(input: string)
    requires input == "FileSaver-v2.0.5.min.js"
    ensures Sanitize(input) == "FileSaver_v2_0_5_min_js"
    ensures OutputPath(input) == "src/FileSaver_v2_0_5_min_js.h"
  {
    FileSaverSpelling();
    MinifiedScriptName("FileSaver", "v2", "0", "5", "min", "js");
  }

  lemma FileSaverSpelling()
    ensures "FileSaver-v2.0.5.min.js" ==
            "FileSaver" + ("-" + ("v2" + ("." + ("0" + ("." + ("5" + ("." + ("min" + ("." + "js")))))))))
    ensures "FileSaver_v2_0_5_min_js" ==
            "FileSaver" + ("_" + ("v2" + ("_" + ("0" + ("_" + ("5" + ("_" + ("min" + ("_" + "js")))))))))
    ensures "src/" + "FileSaver_v2_0_5_min_js" + ".h" == "src/FileSaver_v2_0_5_min_js.h"
  {
  }

  /** The page's header name (src/rocket-telemetry.cpp:17).
      The name is a parameter pinned by the `requires`, so Dafny does not
      unfold `Sanitize` over a literal in the contract: without the steps
      below the proof then fails quickly instead of running out of resource. */
  lemma IndexAssetName(input: string)
    requires input == "index.html"
    ensures Sanitize(input) == "index_html"
    ensures OutputPath(input) == "src/index_html.h"
  {
    IndexSpelling();
    var word := "html";
    assert Sanitize(word) == word by {
      SanitizeWord(word);
    }
    SanitizeStep("index", ".", word);
  }

  lemma IndexSpelling()
    ensures "index.html" == "index" + ("." + "html")
    ensures "index_html" == "index" + ("_" + "html")
    ensures "src/" + "index_html" + ".h" == "src/index_html.h"
  {
  }

  /** Different assets can share a header: names that differ only in their
      punctuation are sanitized alike, and the second overwrites the first. */
  lemma OutputPathsCollide(x: string, y: string)
    requires x == "a.b" && y == "a-b"
    ensures x != y && OutputPath(x) == OutputPath(y)
  {
    var b := "b";
    assert Sanitize(b) == b by {
      SanitizeWord(b);
    }
    assert x == "a" + ("." + b) && y == "a" + ("-" + b);
    SanitizeStep("a", ".", b);
    SanitizeStep("a", "-", b);
  }

  /** `bin2c` accepts a sanitized name exactly when the asset name is non-empty
      and does not start with a digit, and then the match covers the whole name. */
  lemma SanitizedNameAccepted(input: string)
    ensures Bin2C.IdentMatch(Sanitize(input)).Some? <==> |input| > 0 && !IsDigit(input[0])
    ensures Bin2C.IdentMatch(Sanitize(input)).Some? ==>
              Bin2C.IdentMatch(Sanitize(input)).value == |Sanitize(input)|
  {
    var v := Sanitize(input);
    assert forall i :: 0 <= i < |v| ==> Bin2C.IsIdentChar(v[i]);
  }

  /** The outcome of the existence-and-age test for one header. */
  datatype Freshness =
    | Regenerate
    | UpToDate
    | NoAsset   // the header exists but the asset does not: `getmtime` raises

  /** `not os.path.exists(output_file) or getmtime(output_file) < getmtime(input_file)`,
      short-circuited: the asset's time is only read when the header exists. */
  function CheckFreshness(outputMtime: Option<real>, inputMtime: Option<real>): (f: Freshness)
    ensures f == Regenerate <==>
              outputMtime.None? || (inputMtime.Some? && outputMtime.value < inputMtime.value)
    ensures f == NoAsset <==> outputMtime.Some? && inputMtime.None?
  {
    match outputMtime
    case None => Regenerate
    case Some(out) =>
      match inputMtime
      case None => NoAsset
      case Some(inp) => if out < inp then Regenerate else UpToDate
  }

  /** A header written no earlier than its asset's last change is not
      regenerated again until the asset changes. */
  lemma RebuildSettles(written: real, inputMtime: real)
    requires inputMtime <= written
    ensures CheckFreshness(Some(written), Some(inputMtime)) == UpToDate
  {
  }

  /** A header exactly as old as its asset is kept: the comparison is strict. */
  lemma SameTimeIsFresh(t: real)
    ensures CheckFreshness(Some(t), Some(t)) == UpToDate
  {
  }

  /** Touching the asset after the header was written forces a rebuild. */
  lemma TouchForcesRebuild(written: real, inputMtime: real)
    requires written < inputMtime
    ensures CheckFreshness(Some(written), Some(inputMtime)) == Regenerate
  {
  }

  /** An asset as the build sees it: its modification time and the bytes
      `bin2c` embeds (its gzip-compressed content). */
  datatype Asset = Asset(mtime: real, compressed: seq<Bin2C.Byte>)

  /** What one call of `make_compressed_include_h` does to the header. */
  datatype Action =
    | Keep
    | Write(path: string, content: string)
    | Raise(emptied: Option<string>)   // an exception; `Some(path)` when the header was truncated first

  function MtimeOf(a: Option<Asset>): Option<real> {
    match a
    case None => None
    case Some(x) => Some(x.mtime)
  }

  /** `make_compressed_include_h(input)` with `bin2c`'s defaults (line size 80,
      indent 4). The header is opened for writing before `bin2c` runs, so a
      name `bin2c` rejects leaves it empty and `f.write(None)` raises. */
  method MakeIncludeH(input: string, outputMtime: Option<real>, asset: Option<Asset>)
    returns (a: Action)
    ensures CheckFreshness(outputMtime, MtimeOf(asset)) == UpToDate ==> a == Keep
    ensures CheckFreshness(outputMtime, MtimeOf(asset)) == NoAsset ==> a == Raise(None)
    ensures CheckFreshness(outputMtime, MtimeOf(asset)) == Regenerate && asset.None? ==>
              a == Write(OutputPath(input), "")
    ensures CheckFreshness(outputMtime, MtimeOf(asset)) == Regenerate && asset.Some? ==>
              if |input| == 0 || IsDigit(input[0]) then a == Raise(Some(OutputPath(input)))
              else a == Write(OutputPath(input),
                              Bin2C.ArraySource(asset.value.compressed, Sanitize(input),
                                                Bin2C.LineTokens(80, 4), 4))
  {
    var varname := Sanitize(input);
    var outputFile := OutputPath(input);
    var freshness := CheckFreshness(outputMtime, MtimeOf(asset));
    if freshness == UpToDate {
      return Keep;
    }
    if freshness == NoAsset {
      return Raise(None);
    }
    var file := if asset.None? then None else Some(asset.value.compressed);
    var text := Bin2C.Bin2C(file, varname, 80, 4);
    SanitizedNameAccepted(input);
    match text
    case None => a := Raise(Some(outputFile));
    case Some(t) => a := Write(outputFile, t);
  }
}
