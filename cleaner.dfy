/** Description cleaning (`cleaner.py`): cutting a footer that got glued to
    an operation's description, deleting noise phrases, and normalising
    whitespace. */
module Cleaner {
  import opened Wrappers
  import opened Strings
  import opened Records

  /** The marker loop of `strip_footer` over the remaining `markers`: the first
      of them that occurs in `low` cuts `text` at its first occurrence. */
  function CutAt(text: string, low: string, markers: seq<string>): (r: string)
    requires |low| == |text|
    ensures r <= text
  {
    if markers == [] then text
    else
      var idx := IndexOf(low, markers[0]);
      if idx != -1 then text[..idx] else CutAt(text, low, markers[1..])
  }

  /** `strip_footer(text)`: markers are searched for in the lower-cased text
      and the cut is applied to the original text. */
  function StripFooter(cfg: Config, text: string): (r: string)
    ensures r <= text
  {
    CutAt(text, Lower(cfg, text), cfg.footerMarkers)
  }

  /** Some configured marker occurs in the lower-cased text. */
  predicate HasFooter(cfg: Config, text: string) {
    exists j :: 0 <= j < |cfg.footerMarkers| && Contains(Lower(cfg, text), cfg.footerMarkers[j])
  }

  lemma {:induction false} CutAtUnchanged(text: string, low: string, markers: seq<string>)
    requires |low| == |text|
    ensures CutAt(text, low, markers) == text
      <==> text == [] || forall j :: 0 <= j < |markers| ==> !Contains(low, markers[j])
  {
    if markers != [] {
      CutAtUnchanged(text, low, markers[1..]);
      var idx := IndexOf(low, markers[0]);
      if idx != -1 {
        if markers[0] == [] {
          assert OccursAt(low, markers[0], 0);
        }
      } else {
        forall j | 1 <= j < |markers| ensures markers[j] == markers[1..][j - 1] { }
      }
    }
  }

  /** `strip_footer` leaves the text alone exactly when the text is empty or no
      marker occurs in its lower-cased form. */
  lemma StripFooterUnchanged(cfg: Config, text: string)
    ensures StripFooter(cfg, text) == text <==> text == [] || !HasFooter(cfg, text)
  {
    CutAtUnchanged(text, Lower(cfg, text), cfg.footerMarkers);
  }

  lemma {:induction false} CutAtListOrder(text: string, low: string, markers: seq<string>, j: int)
    requires |low| == |text| && 0 <= j < |markers| && Contains(low, markers[j])
    requires forall k :: 0 <= k < j ==> !Contains(low, markers[k])
    ensures CutAt(text, low, markers) == text[..IndexOf(low, markers[j])]
  {
    if j > 0 {
      assert !Contains(low, markers[0]);
      forall k | 0 <= k < j - 1 ensures !Contains(low, markers[1..][k]) {
        assert markers[1..][k] == markers[k + 1];
      }
      CutAtListOrder(text, low, markers[1..], j - 1);
    }
  }

  /** Markers are tried in list order: the text is cut at the first occurrence
      of the first listed marker that occurs at all, wherever the others occur. */
  lemma StripFooterListOrder(cfg: Config, text: string, j: int)
    requires 0 <= j < |cfg.footerMarkers| && Contains(Lower(cfg, text), cfg.footerMarkers[j])
    requires forall k :: 0 <= k < j ==> !Contains(Lower(cfg, text), cfg.footerMarkers[k])
    ensures StripFooter(cfg, text) == text[..IndexOf(Lower(cfg, text), cfg.footerMarkers[j])]
  {
    CutAtListOrder(text, Lower(cfg, text), cfg.footerMarkers, j);
  }

  lemma {:induction false} CutAtLength(t1: string, t2: string, low: string, markers: seq<string>)
    requires |low| == |t1| == |t2|
    ensures |CutAt(t1, low, markers)| == |CutAt(t2, low, markers)|
  {
    if markers != [] && IndexOf(low, markers[0]) == -1 {
      CutAtLength(t1, t2, low, markers[1..]);
    }
  }

  /** The cut position depends on the text only through its lower-cased form,
      so two texts that differ only in case are cut at the same place. */
  lemma StripFooterCaseBlind(cfg: Config, t1: string, t2: string)
    requires Lower(cfg, t1) == Lower(cfg, t2)
    ensures |StripFooter(cfg, t1)| == |StripFooter(cfg, t2)|
  {
    CutAtLength(t1, t2, Lower(cfg, t1), cfg.footerMarkers);
  }

  /** Markers are compared as written with the lower-cased text, so when the
      case map is idempotent a marker holding a character the map does not
      fix (an upper-case letter) never matches. */
  lemma UpperMarkerNeverMatches(cfg: Config, text: string, m: string, i: int)
    requires forall x :: cfg.lower(cfg.lower(x)) == cfg.lower(x)
    requires 0 <= i < |m| && cfg.lower(m[i]) != m[i]
    ensures !Contains(Lower(cfg, text), m)
  {
    var low := Lower(cfg, text);
    forall j: nat ensures !OccursAt(low, m, j) {
      if j + |m| <= |low| {
        assert cfg.lower(cfg.lower(text[j + i])) == cfg.lower(text[j + i]);
        assert low[j..j + |m|][i] == low[j + i];
      }
    }
  }

  /** Cutting at markers by list order is not idempotent: with markers `a`, `b`
      the text `b..a` is cut at `a` to `b..`, which is then cut at `b` to
      nothing, although `b` occurs before `a` in the original. */
  lemma StripFooterNotIdempotent(cfg: Config)
    requires cfg.footerMarkers == ["a", "b"]
    requires cfg.lower('a') == 'a' && cfg.lower('b') == 'b' && cfg.lower('.') == '.'
    ensures StripFooter(cfg, "b..a") == "b.."
    ensures StripFooter(cfg, "b..") == ""
  {
    var low := Lower(cfg, "b..a");
    assert low == "b..a";
    assert OccursAt(low, "a", 3);
    forall j: nat | j < 3 ensures !OccursAt(low, "a", j) {
      assert low[j..j + 1][0] == low[j];
    }
    assert IndexOf(low, "a") == 3;
    var low2 := Lower(cfg, "b..");
    assert low2 == "b..";
    assert OccursAt(low2, "b", 0);
    assert !Contains(low2, "a") by {
      assert forall j: nat :: !OccursAt(low2, "a", j);
    }
    assert IndexOf(low2, "a") == -1;
    assert IndexOf(low2, "b") == 0;
    assert cfg.footerMarkers[1..] == ["b"];
    assert CutAt("b..", low2, ["b"]) == "";
    assert CutAt("b..", low2, cfg.footerMarkers) == CutAt("b..", low2, ["b"]);
    assert "b..a"[..3] == "b..";
  }

  // ---------------------------------------------------------------------------
  // clean_description
  // ---------------------------------------------------------------------------

  /** The noise patterns applied one after another, in list order. */
  function ApplyNoise(patterns: seq<string -> string>, text: string): string
  {
    if patterns == [] then text else ApplyNoise(patterns[1..], patterns[0](text))
  }

  /** `clean_description(text)`: footer first, then the noise patterns in
      order, then whitespace collapsed and trimmed. */
  function Clean(cfg: Config, text: string): string {
    Squash(ApplyNoise(cfg.noisePatterns, StripFooter(cfg, text)))
  }

  /** The loop of `clean_description`, reassigning `text` once per pattern. */
  method CleanDescription(cfg: Config, text: string) returns (r: string)
    ensures r == Clean(cfg, text)
    ensures IsNormal(r)
  {
    var t := StripFooter(cfg, text);
    ghost var start := t;
    var patterns := cfg.noisePatterns;
    for i := 0 to |patterns|
      invariant ApplyNoise(patterns, start) == ApplyNoise(patterns[i..], t)
    {
      assert patterns[i..][1..] == patterns[i + 1..];
      t := patterns[i](t);
    }
    assert patterns[|patterns|..] == [];
    r := Squash(t);
    SquashIsNormal(t);
  }

  /** Splitting the pattern list splits the noise pass: earlier patterns act
      first. */
  lemma {:induction false} ApplyNoiseAppend(a: seq<string -> string>, b: seq<string -> string>, text: string)
    ensures ApplyNoise(a + b, text) == ApplyNoise(b, ApplyNoise(a, text))
    decreases |a|
  {
    if a == [] {
      assert a + b == b;
    } else {
      assert (a + b)[1..] == a[1..] + b;
      ApplyNoiseAppend(a[1..], b, a[0](text));
    }
  }

  /** A cleaned description has no whitespace at either end and every
      whitespace run inside it is one ASCII space. */
  lemma CleanIsNormal(cfg: Config, text: string)
    ensures IsNormal(Clean(cfg, text))
  {
    SquashIsNormal(ApplyNoise(cfg.noisePatterns, StripFooter(cfg, text)));
  }

  /** With no footer and no noise patterns, cleaning only normalises whitespace. */
  lemma CleanWithoutFooter(cfg: Config, text: string)
    requires cfg.noisePatterns == [] && !HasFooter(cfg, text)
    ensures Clean(cfg, text) == Squash(text)
  {
    StripFooterUnchanged(cfg, text);
  }

  /** `clean_description` is not idempotent: the footer cut can expose a marker
      listed earlier. */
  lemma CleanNotIdempotent(cfg: Config)
    requires cfg.footerMarkers == ["a", "b"] && cfg.noisePatterns == []
    requires cfg.lower('a') == 'a' && cfg.lower('b') == 'b' && cfg.lower('.') == '.'
    ensures Clean(cfg, "b..a") == "b.."
    ensures Clean(cfg, Clean(cfg, "b..a")) == ""
  {
    StripFooterNotIdempotent(cfg);
    assert Squash("b..") == "b.." by {
      assert IsNormal("b..");
      SquashOfNormal("b..");
    }
    assert Squash("") == "";
  }
}
