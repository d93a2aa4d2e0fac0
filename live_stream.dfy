/** `getEmbedUrl` of the live-stream panel: YouTube watch and short links are
    rewritten to the embeddable form; anything else is used as it is. */
module LiveStream {
  import opened Common

  const EmbedPrefix := "https://www.youtube.com/embed/"

  function EmbedUrl(url: string): (r: string)
    ensures Contains(url, "youtube.com/embed/") ==> r == url
    ensures !Contains(url, "youtube.com/embed/") && !Contains(url, "youtube.com/watch?v=") && !Contains(url, "youtu.be/") ==> r == url
  {
    if Contains(url, "youtube.com/embed/") then url
    else if Contains(url, "youtube.com/watch?v=") then
      WatchHasV(url);
      EmbedPrefix + Before(Before(After(url, "v="), "v="), "&")
    else if Contains(url, "youtu.be/") then
      EmbedPrefix + Before(Before(After(url, "youtu.be/"), "youtu.be/"), "?")
    else url
  }

  /** A watch link contains `v=`, so `split('v=')[1]` is defined there. */
  lemma WatchHasV(url: string)
    requires Contains(url, "youtube.com/watch?v=")
    ensures Contains(url, "v=")
  {
    var j := IndexOf(url, "youtube.com/watch?v=").value;
    assert url[j + 18..j + 20] == url[j..j + 20][18..20];
    ContainsAt(url, "v=", j + 18);
  }

  /** Every rewritten address is itself an embed address. */
  lemma EmbedIsEmbed(id: string)
    ensures Contains(EmbedPrefix + id, "youtube.com/embed/")
  {
    var s := EmbedPrefix + id;
    assert s[12..30] == "youtube.com/embed/";
    ContainsAt(s, "youtube.com/embed/", 12);
  }

  /** Rewriting twice is rewriting once. */
  lemma EmbedUrlIdempotent(url: string)
    ensures EmbedUrl(EmbedUrl(url)) == EmbedUrl(url)
  {
    if !Contains(url, "youtube.com/embed/") {
      if Contains(url, "youtube.com/watch?v=") {
        WatchHasV(url);
        EmbedIsEmbed(Before(Before(After(url, "v="), "v="), "&"));
      } else if Contains(url, "youtu.be/") {
        EmbedIsEmbed(Before(Before(After(url, "youtu.be/"), "youtu.be/"), "?"));
      }
    }
  }

  const WatchPrefix := "https://www.youtube.com/watch?"

  /** A standard watch link gives the embed address of its video id:
      the text after the first `v=`, cut at the next `v=` or `&`. */
  lemma WatchLinkVideoId(id: string, t: string)
    requires '&' !in id && !Contains(id, "v=")
    requires t == [] || t[0] == '&'
    requires !Contains(WatchPrefix + "v=" + id + t, "youtube.com/embed/")
    ensures EmbedUrl(WatchPrefix + "v=" + id + t) == EmbedPrefix + id
  {
    assert WatchPrefix + "v=" + id + t == WatchPrefix + "v=" + (id + t);
    WatchLinkShape(id + t);
    assert '&' !in "v=";
    CutTwice(id, t, "v=", '&');
    assert "&" == ['&'];
  }

  /** A watch link is recognised as one, and its text after the first `v=`
      is everything after the prefix. */
  lemma WatchLinkShape(rest: string)
    ensures Contains(WatchPrefix + "v=" + rest, "youtube.com/watch?v=")
    ensures Contains(WatchPrefix + "v=" + rest, "v=")
    ensures After(WatchPrefix + "v=" + rest, "v=") == rest
  {
    var url := WatchPrefix + "v=" + rest;
    assert url[..32] == WatchPrefix + "v=";
    assert url[12..32] == "youtube.com/watch?v=";
    ContainsAt(url, "youtube.com/watch?v=", 12);
    FirstVAfterWatchPrefix(url);
    ContainsAt(url, "v=", 30);
    assert url[32..] == rest;
  }

  lemma FirstVAfterWatchPrefix(url: string)
    requires |url| >= 32 && url[..32] == WatchPrefix + "v="
    ensures IndexOf(url, "v=") == Some(30)
  {
    assert 'v' !in WatchPrefix;
    forall i | 0 <= i < 30 ensures !OccursAt(url, "v=", i) {
      assert url[i] == url[..32][i] == WatchPrefix[i];
      assert WatchPrefix[i] in WatchPrefix;
      assert url[i..i + 2][0] == url[i];
    }
    assert url[30..32] == "v=";
    IndexOfAt(url, "v=", 30);
  }

  const ShortPrefix := "https://youtu.be/"

  /** A short link gives the embed address of the id after `youtu.be/`,
      cut at the next `youtu.be/` or `?`. */
  lemma ShortLinkVideoId(id: string, t: string)
    requires '?' !in id && !Contains(id, "youtu.be/")
    requires t == [] || t[0] == '?'
    requires !Contains(ShortPrefix + id + t, "youtube.com/embed/")
    requires !Contains(ShortPrefix + id + t, "youtube.com/watch?v=")
    ensures EmbedUrl(ShortPrefix + id + t) == EmbedPrefix + id
  {
    var url := ShortPrefix + id + t;
    assert url[8..17] == "youtu.be/";
    forall i | 0 <= i < 8 ensures !OccursAt(url, "youtu.be/", i) {
      assert url[i] == ShortPrefix[i];
      assert ShortPrefix[i] in ShortPrefix[..8];
      assert 'y' !in ShortPrefix[..8];
      assert url[i..i + 9][0] == url[i];
    }
    IndexOfAt(url, "youtu.be/", 8);
    assert After(url, "youtu.be/") == id + t;
    assert '?' !in "youtu.be/";
    CutTwice(id, t, "youtu.be/", '?');
    assert "?" == ['?'];
  }
}
