/**
 * Which hosts may be tracked, and under what name: the canonical form of a parsed host, the stored
 * forms of one site, the shape of a public domain, and the names that are reserved or internal.
 */
module Hostnames {
  import opened Strings

  const WWW: string := "www."

  function DropDots(s: string): string {
    if s != "" && s[|s| - 1] == '.' then DropDots(s[..|s| - 1]) else s
  }

  /** Lower-cased and without trailing dots. */
  function Plain(host: string): string { DropDots(Lower(host)) }

  /** And without one leading `www.` label, unless only a single label would be left. */
  function StripWww(host: string): string {
    var plain := Plain(host);
    if WWW <= plain && '.' in plain[|WWW|..] then plain[|WWW|..] else plain
  }

  /** The stored forms of a site, in order of preference. */
  function SameSite(domain: string): seq<string> { [StripWww(domain), WWW + StripWww(domain)] }

  // --- The gate --------------------------------------------------------------------------------------

  predicate Letter(c: char) { 'a' <= c <= 'z' }

  predicate Alphanumeric(c: char) { Letter(c) || '0' <= c <= '9' }

  predicate IsLabel(name: string) {
    && 1 <= |name| <= 63 && Alphanumeric(name[0]) && Alphanumeric(name[|name| - 1])
    && forall i :: 0 <= i < |name| ==> Alphanumeric(name[i]) || name[i] == '-'
  }

  predicate IsTopLevel(name: string) {
    2 <= |name| <= 63 && forall i :: 0 <= i < |name| ==> Letter(name[i])
  }

  /** The public-domain shape: labels separated by dots, at least two, at most 253 characters in all. */
  predicate Shaped(domain: string) { 1 <= |domain| <= 253 && AreLabels(Split(domain, '.')) }

  predicate AreLabels(labels: seq<string>) {
    && |labels| >= 2 && IsTopLevel(labels[|labels| - 1])
    && forall i :: 0 <= i < |labels| - 1 ==> IsLabel(labels[i])
  }

  const NON_PUBLIC: set<string> :=
    {"localhost", "local", "internal", "test", "invalid", "example", "onion", "lan", "home", "corp", "intranet", "private"}

  predicate EndsWith(s: string, suffix: string) { |suffix| <= |s| && s[|s| - |suffix|..] == suffix }

  function LastLabel(host: string): string {
    var labels := Split(host, '.');
    labels[|labels| - 1]
  }

  /** A single label, a reserved or internal top level, or home.arpa. */
  predicate NonPublic(hostname: string) {
    var host := Plain(hostname);
    '.' !in host || host == "home.arpa" || EndsWith(host, ".home.arpa") || LastLabel(host) in NON_PUBLIC
  }

  predicate Accepts(domain: string) { Shaped(domain) && !NonPublic(domain) }

  // --- Canonical names ---------------------------------------------------------------------------------

  lemma {:induction false} DropDotsEnds(s: string)
    ensures DropDots(s) <= s && (DropDots(s) == "" || DropDots(s)[|DropDots(s)| - 1] != '.')
  {
    if s != "" && s[|s| - 1] == '.' { DropDotsEnds(s[..|s| - 1]); }
  }

  predicate IsPlain(s: string) {
    (s == "" || s[|s| - 1] != '.') && forall i :: 0 <= i < |s| ==> !('A' <= s[i] <= 'Z')
  }

  lemma PlainExactly(s: string)
    ensures IsPlain(Plain(s)) && (Plain(s) == s <==> IsPlain(s))
  {
    var lower := Lower(s);
    DropDotsEnds(lower);
    var plain := DropDots(lower);
    assert forall i :: 0 <= i < |plain| ==> plain[i] == lower[i];
    if IsPlain(s) { assert lower == s; }
  }

  /** A canonical name is plain. */
  lemma StripWwwPlain(host: string)
    ensures IsPlain(StripWww(host))
  {
    hide Plain;
    PlainExactly(host);
  }

  /** A plain name means its own site. */
  lemma SiteContainsDomain(domain: string)
    requires IsPlain(domain)
    ensures domain in SameSite(domain)
  {
    hide Plain;
    PlainExactly(domain);
    if StripWww(domain) != domain {
      assert domain == WWW + domain[|WWW|..];
    }
  }

  /** A bare host: a name with a dot whose leading label is not a strippable `www`. */
  predicate Bare(site: string) { '.' in site && StripWww(site) == site }

  lemma BothFormsAreOneSite(site: string)
    requires Bare(site)
    ensures IsPlain(site) && IsPlain(WWW + site)
    ensures SameSite(site) == [site, WWW + site] == SameSite(WWW + site) && site != WWW + site
  {
    hide Plain;
    StripWwwPlain(site);
    PlainExactly(site);
    PlainExactly(WWW + site);
    assert (WWW + site)[|WWW|..] == site;
    assert |site| != |WWW + site|;
  }

  /** A host normalizes to the `www.` twin of a bare site only if it carries the label twice. */
  lemma TwinMeansDoubledLabel(host: string, site: string)
    requires Bare(site)
    ensures StripWww(host) == WWW + site <==> Plain(host) == WWW + WWW + site
    ensures StripWww(host) == site <==> Plain(host) == site || Plain(host) == WWW + site
  {
    hide Plain;
    StripWwwPlain(site);
    PlainExactly(site);
    var plain := Plain(host);
    assert (WWW + WWW + site)[|WWW|..] == WWW + site && (WWW + site)[|WWW|..] == site;
    assert (WWW + site)[3] == '.';
    if WWW <= plain { assert plain == WWW + plain[|WWW|..]; }
    assert WWW + WWW + site == WWW + (WWW + site);
  }

  // --- Which twins the gate lets through ---------------------------------------------------------------

  lemma SplitWww(site: string)
    ensures Split(WWW + site, '.') == ["www"] + Split(site, '.')
  {
    IndexOfFirst("www", '.', site);
    assert WWW + site == "www" + ['.'] + site;
    assert (WWW + site)[..3] == "www" && (WWW + site)[4..] == site;
  }

  lemma HomeArpaTwin(site: string)
    ensures WWW + site != "home.arpa"
    ensures EndsWith(WWW + site, ".home.arpa") <==> site == "home.arpa" || EndsWith(site, ".home.arpa")
  {
    var twin, suffix := WWW + site, ".home.arpa";
    assert twin[0] == 'w';
    if |site| >= |suffix| {
      assert twin[|twin| - |suffix|..] == site[|site| - |suffix|..];
    } else if |site| == |suffix| - 1 {
      assert twin[|twin| - |suffix|..] == "." + site;
      assert suffix == "." + "home.arpa";
      assert ("." + site)[1..] == site && suffix[1..] == "home.arpa";
    } else if |twin| >= |suffix| {
      assert twin[|twin| - |suffix|..][..4] != suffix[..4] by {
        var k := |suffix| - |site| - 1;
        assert twin[|twin| - |suffix|..][k] == twin[3] == '.';
        assert suffix[k] != '.';
      }
    }
  }

  lemma ShapedTwin(site: string)
    requires '.' in site
    ensures Shaped(WWW + site) <==> Shaped(site) && |WWW + site| <= 253
  {
    hide AreLabels, Split;
    SplitWww(site);
    SplitNeedsDot(site);
    OneMoreLabel(Split(site, '.'));
  }

  lemma OneMoreLabel(labels: seq<string>)
    requires |labels| >= 2
    ensures AreLabels(["www"] + labels) <==> AreLabels(labels)
  {
    hide IsLabel, IsTopLevel;
    WwwIsLabel();
    var more := ["www"] + labels;
    if AreLabels(more) {
      forall i | 0 <= i < |labels| - 1 ensures IsLabel(labels[i]) { assert IsLabel(more[i + 1]); }
    }
  }

  lemma WwwIsLabel()
    ensures IsLabel("www")
  {
  }

  lemma SplitNeedsDot(s: string)
    requires '.' in s
    ensures |Split(s, '.')| >= 2
  {
  }

  lemma NonPublicTwin(site: string)
    requires '.' in site && IsPlain(site)
    ensures NonPublic(WWW + site) <==> NonPublic(site)
  {
    hide Plain, Split, EndsWith;
    PlainExactly(site);
    PlainExactly(WWW + site);
    SplitWww(site);
    HomeArpaTwin(site);
    assert (WWW + site)[3] == '.';
  }

  /** The gate lets the twin of a site through exactly when it lets the site through and the name has room. */
  lemma TwinAccepted(site: string)
    requires Bare(site)
    ensures Accepts(WWW + site) <==> Accepts(site) && |WWW + site| <= 253
  {
    hide Shaped, NonPublic, StripWww;
    BothFormsAreOneSite(site);
    ShapedTwin(site);
    NonPublicTwin(site);
  }
}
