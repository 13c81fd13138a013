/**
 * The recent-activities card's helpers (src/components/logs/recentActivities.tsx):
 * its own copy of formatRelativeTime, parseUrlsFromText and its getDomain,
 * which truncates at 25 characters.
 */
module RecentActivities {
  import opened Wrappers
  import opened JsString
  import Domain

  /** The card's truncation length. */
  const MAX_DOMAIN: nat := 25

  /**
   * The card's formatRelativeTime, written out with its own divisions
   * (`Math.floor(diff / (1000 * 60 * ...))`; Dafny's division by a positive
   * number is the floor).
   */
  function RelativeTime(date: int, now: int): (text: string)
    ensures now - date < 60000 ==> text == "Just now"
  {
    var diff := now - date;
    var days := diff / (1000 * 60 * 60 * 24);
    var hours := diff / (1000 * 60 * 60);
    var minutes := diff / (1000 * 60);
    if days > 0 then (if days == 1 then "Yesterday" else NatToString(days) + " days ago")
    else if hours > 0 then (if hours == 1 then "1 hour ago" else NatToString(hours) + " hours ago")
    else if minutes > 0 then (if minutes == 1 then "1 minute ago" else NatToString(minutes) + " minutes ago")
    else "Just now"
  }

  /** The copy agrees with the shared formatRelativeTime on every input. */
  lemma {:induction false} RelativeTimeAgrees(date: int, now: int)
    ensures RelativeTime(date, now) == Domain.FormatRelativeTime(date, now)
  {
    var diff := now - date;
    assert Domain.FloorDiv(diff, Domain.DAY_MS) == diff / (1000 * 60 * 60 * 24);
    assert Domain.FloorDiv(diff, Domain.HOUR_MS) == diff / (1000 * 60 * 60);
    assert Domain.FloorDiv(diff, Domain.MINUTE_MS) == diff / (1000 * 60);
  }

  /**
   * The labels by elapsed time: any future instant and anything under a
   * minute is "Just now"; exactly one whole day is "Yesterday", more is
   * "N days ago"; hours and minutes take the singular form only at 1.
   */
  lemma {:induction false} RelativeTimeLabels(date: int, now: int)
    ensures RelativeTime(date, now) == "Just now" <==> now - date < 60000
    ensures (now - date) / 86400000 == 1 ==> RelativeTime(date, now) == "Yesterday"
    ensures (now - date) / 86400000 >= 2 ==>
      RelativeTime(date, now) == NatToString((now - date) / 86400000) + " days ago"
    ensures 3600000 <= now - date < 86400000 ==>
      RelativeTime(date, now) == Domain.AgoLabel((now - date) / 3600000, "hour")
    ensures 60000 <= now - date < 3600000 ==>
      RelativeTime(date, now) == Domain.AgoLabel((now - date) / 60000, "minute")
  {
    RelativeTimeAgrees(date, now);
    Domain.FormatRelativeTimeJustNow(date, now);
    if now - date >= Domain.DAY_MS {
      Domain.FormatRelativeTimeDays(date, now);
    } else if now - date >= Domain.HOUR_MS {
      Domain.FormatRelativeTimeHours(date, now);
    } else if now - date >= Domain.MINUTE_MS {
      Domain.FormatRelativeTimeMinutes(date, now);
    }
  }

  /** What parseUrlsFromText returns. */
  datatype ParsedText = ParsedText(text: string, urls: seq<string>)

  /** parseUrlsFromText: the text itself, unchanged, with the URLs found in it. */
  function ParseUrlsFromText(text: string): (r: ParsedText)
    ensures r.text == text
    ensures forall k :: 0 <= k < |r.urls| ==> Domain.IsUrl(r.urls[k]) && HasSubstring(text, r.urls[k])
  {
    ParsedText(text, Domain.ExtractUrls(text))
  }

  /**
   * The card's getDomain: the host name without its first "www.", or the URL
   * itself when it does not parse, cut to 25 characters plus "..." when longer.
   */
  function CardDomain(url: string, hostname: Option<string>): (r: string)
    ensures hostname.None? && |url| > MAX_DOMAIN ==> r == url[..MAX_DOMAIN] + "..."
    ensures hostname.None? && |url| <= MAX_DOMAIN ==> r == url
    ensures |r| <= MAX_DOMAIN + 3
  {
    var shown := if hostname.Some? then ReplaceFirst(hostname.value, "www.", "") else url;
    if |shown| > 25 then shown[..25] + "..." else shown
  }

  /** The card's getDomain is the shared getDomain at its default length of 25. */
  lemma {:induction false} CardDomainAgrees(url: string, hostname: Option<string>)
    ensures CardDomain(url, hostname) == Domain.GetDomain(url, hostname, MAX_DOMAIN)
  {
  }
}
