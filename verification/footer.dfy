/**
 The footer's social links: which hrefs they carry, and the rule that
 decides whether a link opens in a new tab. Links to mail, to the phone
 and to paths on the site stay in the current tab; every other link gets
 `target="_blank"` together with `rel="noopener noreferrer"`.
 */
module Footer {
  import opened Wrappers
  import opened Text

  /** The site configuration fields the footer reads; an absent field is `None`. */
  datatype Config = Config(email: string, github: string, linkedin: string,
                           facebook: Option<string>, mobile: Option<string>)

  /** An anchor as rendered: its href and the two attributes the rule sets or omits. */
  datatype Anchor = Anchor(href: string, target: Option<string>, rel: Option<string>)

  datatype Social = Social(name: string, href: string)

  const NewTab := "_blank"
  const SafeRel := "noopener noreferrer"
  const FacebookFallback := "#"

  /**
   An href that stays in the current tab: a `mailto:` or `tel:` link, or a
   path on the site -- one of the three prefixes followed by anything.
   */
  function IsLocalHref(h: string): (ok: bool)
    ensures ok <==> exists t :: h == "mailto:" + t || h == "tel:" + t || h == "/" + t
  {
    StartsWithConcat(h, "mailto:");
    StartsWithConcat(h, "tel:");
    StartsWithConcat(h, "/");
    StartsWith(h, "mailto:") || StartsWith(h, "tel:") || StartsWith(h, "/")
  }

  /** The `target` and `rel` choice for one social link. */
  function SocialAnchor(href: string): (a: Anchor)
    ensures a.href == href
    ensures a.target.None? <==> IsLocalHref(href)
    ensures a.target.None? <==> a.rel.None?
    ensures a.target.Some? ==> a.target.value == NewTab && a.rel.value == SafeRel
  {
    if IsLocalHref(href) then Anchor(href, None, None) else Anchor(href, Some(NewTab), Some(SafeRel))
  }

  /** A template literal `${v}`: an absent value renders as the text "undefined". */
  function Interpolate(v: Option<string>): string {
    v.GetOr("undefined")
  }

  /** `socialLinks`: the five links, in order, with "#" standing in for a missing (or empty) Facebook address. */
  function SocialLinks(cfg: Config): (r: seq<Social>)
    ensures |r| == 5
    ensures r[0].href == cfg.github && r[1].href == cfg.linkedin
    ensures r[2].href == if cfg.facebook.Some? && cfg.facebook.value != "" then cfg.facebook.value else FacebookFallback
    ensures StartsWith(r[3].href, "mailto:") && r[3].href[|"mailto:"|..] == cfg.email
    ensures StartsWith(r[4].href, "tel:") && r[4].href[|"tel:"|..] == Interpolate(cfg.mobile)
  {
    var facebook := if cfg.facebook.Some? && cfg.facebook.value != "" then cfg.facebook.value else FacebookFallback;
    [ Social("GitHub", cfg.github),
      Social("LinkedIn", cfg.linkedin),
      Social("Facebook", facebook),
      Social("Email", "mailto:" + cfg.email),
      Social("Phone", "tel:" + Interpolate(cfg.mobile)) ]
  }

  /** The footer's social row. */
  function SocialRow(cfg: Config): (r: seq<Anchor>)
    ensures |r| == |SocialLinks(cfg)|
    ensures forall i | 0 <= i < |r| :: r[i] == SocialAnchor(SocialLinks(cfg)[i].href)
  {
    var links := SocialLinks(cfg);
    seq(|links|, i requires 0 <= i < |links| => SocialAnchor(links[i].href))
  }

  /** Every rendered social link sets both `target` and `rel`, or neither. */
  lemma TargetAndRelTogether(cfg: Config)
    ensures forall i | 0 <= i < |SocialRow(cfg)| :: SocialRow(cfg)[i].target.Some? == SocialRow(cfg)[i].rel.Some?
  {
  }

  /** The mail and phone links stay in the current tab, whatever the address or number. */
  lemma MailAndPhoneStayInTab(cfg: Config)
    ensures SocialRow(cfg)[3].target.None? && SocialRow(cfg)[3].rel.None?
    ensures SocialRow(cfg)[4].target.None? && SocialRow(cfg)[4].rel.None?
  {
  }

  /** The "#" fallback has none of the local prefixes, so the rule treats it as an external link. */
  lemma FacebookFallbackOpensNewTab(cfg: Config)
    requires cfg.facebook.None? || cfg.facebook == Some("")
    ensures SocialRow(cfg)[2] == Anchor(FacebookFallback, Some(NewTab), Some(SafeRel))
  {
    assert FacebookFallback[..1][0] != "/"[0];
  }

  /** Any `https://` address opens in a new tab with the safe `rel`. */
  lemma HttpsOpensNewTab(h: string)
    requires StartsWith(h, "https://")
    ensures SocialAnchor(h) == Anchor(h, Some(NewTab), Some(SafeRel))
  {
    assert h[0] == 'h';
  }

  /** A configuration without a phone number still renders a phone link, to `tel:undefined`, which stays in the tab. */
  lemma PhoneLinkWithoutNumber(cfg: Config)
    requires cfg.mobile.None?
    ensures SocialLinks(cfg)[4].href == "tel:undefined"
    ensures SocialRow(cfg)[4] == Anchor("tel:undefined", None, None)
  {
  }

  /** A link stays in the tab exactly when its href is one of the local prefixes followed by anything. */
  lemma LocalHrefShape(h: string)
    ensures SocialAnchor(h).target.None?
      <==> exists t :: h == "mailto:" + t || h == "tel:" + t || h == "/" + t
  {
  }
}
