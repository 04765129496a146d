/**
 * Selection of the sector screener links on a quote page: every `tab-link`
 * anchor whose href mentions "screener" becomes an entry from the anchor's
 * text to the absolute screener URL, optionally narrowed by a volume filter.
 */
module SectorLinks {
  import opened Wrappers
  import opened Errors
  import opened Seqs
  import opened Text
  import opened Dicts

  /** An anchor: its text and its `href` attribute, which an anchor may lack. */
  datatype Link = Link(text: string, href: Option<string>)

  const Site: string := "https://finviz.com/"

  /** Python truthiness of `min_volume`: None and the empty string are false. */
  predicate Truthy(minVolume: Option<string>) {
    minVolume.Some? && minVolume.value != ""
  }

  /** The anchor has no `href`, so `link.attrs['href']` raises KeyError. */
  predicate NoHref(l: Link) {
    l.href.None?
  }

  predicate AllHaveHref(links: seq<Link>) {
    forall i :: 0 <= i < |links| ==> !NoHref(links[i])
  }

  /** The anchor has an href and `'screener' in href`. */
  predicate IsScreener(l: Link) {
    l.href.Some? && Contains(l.href.value, "screener")
  }

  /** The URL stored for a screener link: the href under the site root, then `,min_volume` when it is truthy. */
  function LinkUrl(href: string, minVolume: Option<string>): string {
    if Truthy(minVolume) then Site + href + "," + minVolume.value else Site + href
  }

  /** The writes `related_links[text] = url` performed by the loop over `links`, in order. */
  function LinkWrites(links: seq<Link>, minVolume: Option<string>): (w: seq<(string, string)>)
    ensures |w| <= |links|
  {
    if links == [] then []
    else
      var l := links[|links| - 1];
      LinkWrites(links[..|links| - 1], minVolume)
        + (if IsScreener(l) then [(l.text, LinkUrl(l.href.value, minVolume))] else [])
  }

  /** The dict `related_links`, or the KeyError raised at the first anchor without an href. */
  function RelatedLinks(links: seq<Link>, minVolume: Option<string>): Result<Dict<string, string>, Error> {
    var f := FirstWhere(links, NoHref);
    if f < |links| then Err(MissingHref(f))
    else Ok(PutAll(Empty(), LinkWrites(links, minVolume)))
  }

  /** The writes of one more anchor. */
  lemma {:induction false} LinkWritesNext(links: seq<Link>, minVolume: Option<string>, i: nat)
    requires i < |links|
    ensures var l := links[i];
      LinkWrites(links[..i + 1], minVolume) ==
        LinkWrites(links[..i], minVolume) + (if IsScreener(l) then [(l.text, LinkUrl(l.href.value, minVolume))] else [])
  {
    assert links[..i + 1][..i] == links[..i];
  }

  /** The dict after one more anchor: a screener anchor stores its URL under its text, any other leaves it alone. */
  lemma {:induction false} RelatedNext(links: seq<Link>, minVolume: Option<string>, i: nat)
    requires i < |links|
    ensures var l, before := links[i], PutAll(Empty(), LinkWrites(links[..i], minVolume));
      PutAll(Empty(), LinkWrites(links[..i + 1], minVolume)) ==
        if IsScreener(l) then before.Put(l.text, LinkUrl(l.href.value, minVolume)) else before
  {
    LinkWritesNext(links, minVolume, i);
    var l, w := links[i], LinkWrites(links[..i], minVolume);
    if IsScreener(l) {
      PutAllSnoc(Empty(), w, (l.text, LinkUrl(l.href.value, minVolume)));
    } else {
      assert w + [] == w;
    }
  }

  /** The URL starts at the site root, carries the href, and ends in `,min_volume` exactly when it is truthy. */
  lemma {:induction false} UrlParts(href: string, minVolume: Option<string>)
    ensures var u := LinkUrl(href, minVolume);
      |Site| + |href| <= |u| && u[..|Site|] == Site && u[|Site|..|Site| + |href|] == href &&
      (Truthy(minVolume) <==> |u| > |Site| + |href|) &&
      (Truthy(minVolume) ==> u[|Site| + |href|..] == "," + minVolume.value)
  {
    var u := LinkUrl(href, minVolume);
    var tail := if Truthy(minVolume) then "," + minVolume.value else "";
    assert u == (Site + href) + tail;
    assert (Site + href)[..|Site|] == Site;
    assert (Site + href)[|Site|..] == href;
    assert u[..|Site| + |href|] == Site + href;
    assert u[|Site| + |href|..] == tail;
  }

  /** The dict fails exactly when some anchor lacks an href, and then names the first one. */
  lemma {:induction false} RelatedLinksError(links: seq<Link>, minVolume: Option<string>)
    ensures RelatedLinks(links, minVolume).Err? <==> !AllHaveHref(links)
    ensures RelatedLinks(links, minVolume).Err? ==>
      var i := RelatedLinks(links, minVolume).error.link;
      i < |links| && NoHref(links[i]) && AllHaveHref(links[..i])
  {
  }

  /** Each write comes from a screener anchor, and each screener anchor writes. */
  lemma {:induction false} LinkWritesOrigin(links: seq<Link>, minVolume: Option<string>, e: (string, string))
    ensures e in LinkWrites(links, minVolume) <==>
      exists i :: 0 <= i < |links| && IsScreener(links[i]) && e == (links[i].text, LinkUrl(links[i].href.value, minVolume))
  {
    if links != [] {
      var front := links[..|links| - 1];
      LinkWritesOrigin(front, minVolume, e);
      assert forall i :: 0 <= i < |front| ==> front[i] == links[i];
    }
  }

  /** The dict's keys are exactly the texts of the screener anchors. */
  lemma {:induction false} RelatedKeys(links: seq<Link>, minVolume: Option<string>, text: string)
    requires RelatedLinks(links, minVolume).Ok?
    ensures text in RelatedLinks(links, minVolume).value.entries <==>
      exists i :: 0 <= i < |links| && IsScreener(links[i]) && links[i].text == text
  {
    var w := LinkWrites(links, minVolume);
    PutAllKeys(w);
    PutAllValid(Empty(), w);
    if exists i :: 0 <= i < |links| && IsScreener(links[i]) && links[i].text == text {
      var i :| 0 <= i < |links| && IsScreener(links[i]) && links[i].text == text;
      LinkWritesOrigin(links, minVolume, (text, LinkUrl(links[i].href.value, minVolume)));
      var j :| 0 <= j < |w| && w[j] == (text, LinkUrl(links[i].href.value, minVolume));
      assert Labels(w)[j] == text;
    }
    if text in Labels(w) {
      var j :| 0 <= j < |w| && Labels(w)[j] == text;
      LinkWritesOrigin(links, minVolume, w[j]);
    }
  }

  /** The last screener anchor with a given text decides its URL: a repeated text overwrites the earlier URL. */
  lemma {:induction false} LastLinkWrite(links: seq<Link>, minVolume: Option<string>, i: nat)
    requires i < |links| && IsScreener(links[i])
    requires forall j :: i < j < |links| && IsScreener(links[j]) ==> links[j].text != links[i].text
    ensures LastWrite(LinkWrites(links, minVolume), links[i].text) == Some(LinkUrl(links[i].href.value, minVolume))
  {
    if i < |links| - 1 {
      var front := links[..|links| - 1];
      assert front[i] == links[i];
      LastLinkWrite(front, minVolume, i);
      var l := links[|links| - 1];
      if IsScreener(l) {
        LastWriteSkip(LinkWrites(front, minVolume), (l.text, LinkUrl(l.href.value, minVolume)), links[i].text);
      } else {
        assert LinkWrites(links, minVolume) == LinkWrites(front, minVolume) + [];
        assert LinkWrites(front, minVolume) + [] == LinkWrites(front, minVolume);
      }
    }
  }

  /** The dict maps the text of the last screener anchor carrying it to that anchor's URL. */
  lemma {:induction false} RelatedValue(links: seq<Link>, minVolume: Option<string>, i: nat)
    requires RelatedLinks(links, minVolume).Ok? && i < |links|
    requires IsScreener(links[i])
    requires forall j :: i < j < |links| && IsScreener(links[j]) ==> links[j].text != links[i].text
    ensures RelatedLinks(links, minVolume).value.Get(links[i].text) == Some(LinkUrl(links[i].href.value, minVolume))
  {
    LastLinkWrite(links, minVolume, i);
    LastWriteWins(Empty(), LinkWrites(links, minVolume), links[i].text);
  }
}
