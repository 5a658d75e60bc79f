/**
 * The pure helpers of the events page (Frontend/js/events.js): the image
 * address an event card shows, and whether the card offers edit and delete
 * buttons. The variant of the image helper on the account page
 * (Frontend/js/account.js) is modelled beside it.
 */
module EventsPage {
  import opened Domain
  import opened Text
  import Catalog

  /** The inline "No Image" picture shown when an event has no image. */
  const Placeholder: string := "data:image/svg+xml;charset=UTF-8,%3Csvg%20width%3D%22300%22%20height%3D%22200%22%20xmlns%3D%22http%3A%2F%2Fwww.w3.org%2F2000%2Fsvg%22%20viewBox%3D%220%200%20300%20200%22%20preserveAspectRatio%3D%22none%22%3E%3Cdefs%3E%3Cstyle%20type%3D%22text%2Fcss%22%3E%23holder%20text%20%7B%20fill%3A%23AAAAAA%3Bfont-weight%3Abold%3Bfont-family%3AArial%2C%20Helvetica%2C%20Open%20Sans%2C%20sans-serif%2C%20monospace%3Bfont-size%3A15pt%20%7D%20%3C%2Fstyle%3E%3C%2Fdefs%3E%3Cg%20id%3D%22holder%22%3E%3Crect%20width%3D%22300%22%20height%3D%22200%22%20fill%3D%22%23EEEEEE%22%3E%3C%2Frect%3E%3Cg%3E%3Ctext%20x%3D%2294.5%22%20y%3D%22106%22%3ENo%20Image%3C%2Ftext%3E%3C%2Fg%3E%3C%2Fg%3E%3C%2Fsvg%3E"

  /** The backend origin that serves uploaded files. */
  const Origin: string := "http://127.0.0.1:3000/"

  /** The directory marker the path is cut at. */
  const Marker: string := "uploads/"

  /** `path.substring(path.indexOf("uploads/"))` when the marker occurs, else the path itself. */
  function CutAtMarker(q: string): (p: string)
    ensures |p| <= |q| && p == q[|q| - |p|..]
    ensures IndexOf(q, Marker) == -1 ==> p == q
    ensures IndexOf(q, Marker) != -1 ==> p == q[IndexOf(q, Marker)..] && OccursAt(p, Marker, 0)
  {
    var i := IndexOf(q, Marker);
    if i == -1 then q
    else
      assert q[i..][..|Marker|] == q[i..i + |Marker|];
      q[i..]
  }

  /**
   * The stored image path cleaned up: trimmed, backslashes turned into
   * slashes, and cut so that it starts at its first "uploads/" if it has one.
   */
  function CleanPath(imageUrl: string): (p: string)
    ensures '\\' !in p && Trimmed(p)
    ensures IndexOf(p, Marker) == -1 || IndexOf(p, Marker) == 0
  {
    var q := ReplaceBackslashes(Trim(imageUrl));
    TrimIsTrimmed(imageUrl);
    ReplaceKeepsTrimmed(Trim(imageUrl));
    var p := CutAtMarker(q);
    CutKeepsClean(q);
    p
  }

  /** An absolute address or a data URI is used as it is. */
  predicate Absolute(p: string)
  {
    StartsWith(p, "http") || StartsWith(p, "data:")
  }

  /** What an event card's picture shows: the placeholder, or an address. */
  datatype CardImage = NoImage | Address(url: string)

  /** The `src` attribute written into the card. */
  function Src(i: CardImage): string
  {
    match i
    case NoImage => Placeholder
    case Address(url) => url
  }

  /**
   * The picture of an event card: the placeholder when there is no image,
   * the cleaned path when it is absolute, and otherwise the cleaned path
   * under the backend origin.
   */
  function ImageSrc(imageUrl: Option<string>): (src: CardImage)
    ensures src.NoImage? <==> imageUrl.None? || imageUrl == Some("")
    ensures src.Address? ==>
      var p := CleanPath(imageUrl.value);
      src.url == (if Absolute(p) then p else Origin + p)
  {
    if imageUrl.None? || imageUrl.value == "" then NoImage
    else
      var p := CleanPath(imageUrl.value);
      Address(if Absolute(p) then p else Origin + p)
  }

  /** The account page's variant: the cleaned path always goes under the backend origin. */
  function AccountImageSrc(imageUrl: Option<string>): (src: CardImage)
    ensures src.NoImage? <==> imageUrl.None? || imageUrl == Some("")
    ensures src.Address? ==> src.url == Origin + CleanPath(imageUrl.value)
  {
    if imageUrl.None? || imageUrl.value == "" then NoImage
    else Address(Origin + CleanPath(imageUrl.value))
  }

  /** The identity the page keeps in local storage. */
  datatype ClientUser = ClientUser(id: UserId, role: string)

  /**
   * The card shows edit and delete buttons to a signed-in admin, or to the
   * event's creator when the creator's account could be looked up.
   */
  predicate CanManage(user: Option<ClientUser>, creator: Option<UserId>): (r: bool)
    ensures user.None? ==> !r
    ensures user.Some? && user.value.role == RoleAdmin ==> r
    ensures user.Some? && user.value.role != RoleAdmin ==> (r <==> creator == Some(user.value.id))
  {
    user.Some? && (user.value.role == RoleAdmin || (creator.Some? && user.value.id == creator.value))
  }

  // ---------------------------------------------------------------------------
  // Lemmas

  /** Cutting a clean string at the marker leaves a clean string that starts with the marker or lacks it. */
  lemma CutKeepsClean(q: string)
    requires '\\' !in q && Trimmed(q)
    ensures '\\' !in CutAtMarker(q) && Trimmed(CutAtMarker(q))
    ensures IndexOf(CutAtMarker(q), Marker) == -1 || IndexOf(CutAtMarker(q), Marker) == 0
  {
    var p := CutAtMarker(q);
    var d := |q| - |p|;
    forall k | 0 <= k < |p| ensures p[k] == q[d + k] { }
    if IndexOf(q, Marker) != -1 {
      assert p[0] == Marker[0] == 'u';
      assert p[|p| - 1] == q[|q| - 1];
      FirstOccurrenceAtZero(p, Marker);
    }
  }

  /** A pattern found at index 0 is found first. */
  lemma FirstOccurrenceAtZero(s: string, pat: string)
    requires OccursAt(s, pat, 0)
    ensures IndexOf(s, pat) == 0
  {
  }

  /** Backslashes and slashes are not whitespace, so the replacement keeps a trimmed string trimmed. */
  lemma ReplaceKeepsTrimmed(s: string)
    requires Trimmed(s)
    ensures Trimmed(ReplaceBackslashes(s))
  {
  }

  /** Without backslashes the replacement changes nothing. */
  lemma ReplaceWithoutBackslash(s: string)
    requires '\\' !in s
    ensures ReplaceBackslashes(s) == s
  {
    var r := ReplaceBackslashes(s);
    assert forall k | 0 <= k < |s| :: s[k] != '\\';
    assert |r| == |s|;
  }

  /** Two first-occurrence answers for the same search agree. */
  lemma IndexOfUnique(s: string, pat: string, k: int)
    requires k == -1 || OccursAt(s, pat, k)
    requires forall j | 0 <= j && (k == -1 || j < k) :: !OccursAt(s, pat, j)
    ensures IndexOf(s, pat) == k
  {
  }

  /** A prefix without a 'u' cannot hold the start of "uploads/": the search skips it. */
  lemma MarkerAfterPrefix(prefix: string, s: string)
    requires 'u' !in prefix
    ensures IndexOf(prefix + s, Marker) == if IndexOf(s, Marker) == -1 then -1 else |prefix| + IndexOf(s, Marker)
  {
    var t := prefix + s;
    var i := IndexOf(s, Marker);
    var k := if i == -1 then -1 else |prefix| + i;
    forall j | 0 <= j && (k == -1 || j < k) ensures !OccursAt(t, Marker, j) {
      if j < |prefix| && j + |Marker| <= |t| {
        assert prefix[j] in prefix;
        assert t[j..j + |Marker|][0] == t[j] == prefix[j] != Marker[0];
      } else if |prefix| <= j && j + |Marker| <= |t| {
        assert s[j - |prefix|..j - |prefix| + |Marker|] == t[j..j + |Marker|];
        assert !OccursAt(s, Marker, j - |prefix|);
      }
    }
    if k != -1 {
      assert t[k..k + |Marker|] == s[i..i + |Marker|];
    }
    IndexOfUnique(t, Marker, k);
  }

  /** A path that is already clean comes out of the clean-up as it went in. */
  lemma CleanPathFixed(p: string)
    requires '\\' !in p && Trimmed(p)
    requires IndexOf(p, Marker) == -1 || IndexOf(p, Marker) == 0
    ensures CleanPath(p) == p
  {
    TrimOfTrimmed(p);
    ReplaceWithoutBackslash(p);
  }

  /** A path that holds "uploads/" is always served by the backend, from the marker on. */
  lemma UploadsServedByBackend(imageUrl: string)
    requires imageUrl != ""
    requires IndexOf(ReplaceBackslashes(Trim(imageUrl)), Marker) != -1
    ensures StartsWith(CleanPath(imageUrl), Marker)
    ensures ImageSrc(Some(imageUrl)) == Address(Origin + CleanPath(imageUrl))
    ensures AccountImageSrc(Some(imageUrl)) == ImageSrc(Some(imageUrl))
  {
    var p := CleanPath(imageUrl);
    assert p == CutAtMarker(ReplaceBackslashes(Trim(imageUrl)));
    MarkerNotAbsolute(p);
  }

  /** A path that starts with "uploads/" is neither an http address nor a data URI. */
  lemma MarkerNotAbsolute(p: string)
    requires OccursAt(p, Marker, 0)
    ensures StartsWith(p, Marker) && !Absolute(p)
  {
    assert p[..|Marker|] == Marker;
    assert p[0] == 'u';
  }

  /** The two image helpers differ only on paths that are already absolute. */
  lemma AccountVariantAgreement(imageUrl: Option<string>)
    ensures AccountImageSrc(imageUrl) == ImageSrc(imageUrl)
        <==> imageUrl.None? || imageUrl == Some("") || !Absolute(CleanPath(imageUrl.value))
  {
    if imageUrl.Some? && imageUrl.value != "" {
      var p := CleanPath(imageUrl.value);
      if Absolute(p) {
        assert |Origin + p| > |p|;
      }
    }
  }

  /** Feeding a card's image address back through the helper gives the same address. */
  lemma ImageSrcIdempotent(imageUrl: Option<string>)
    ensures ImageSrc(imageUrl).Address? ==> ImageSrc(Some(ImageSrc(imageUrl).url)) == ImageSrc(imageUrl)
  {
    if ImageSrc(imageUrl).Address? {
      var src := ImageSrc(imageUrl).url;
      var p := CleanPath(imageUrl.value);
      if Absolute(p) {
        assert src == p;
        AbsoluteIsClean(p);
      } else {
        assert src == Origin + p;
        OriginPathIsClean(p);
      }
    }
  }

  /** An absolute clean path is its own image address. */
  lemma AbsoluteIsClean(p: string)
    requires '\\' !in p && Trimmed(p)
    requires IndexOf(p, Marker) == -1 || IndexOf(p, Marker) == 0
    requires Absolute(p)
    ensures ImageSrc(Some(p)) == Address(p)
  {
    CleanPathFixed(p);
    AbsoluteAddressResolves(p);
  }

  /** The last step: a non-empty absolute path that cleaning keeps is used as it is. */
  lemma AbsoluteAddressResolves(p: string)
    requires CleanPath(p) == p && Absolute(p)
    ensures ImageSrc(Some(p)) == Address(p)
  {
    assert p != "";
  }

  /** What the clean-up and the absolute-address test need to know of the origin. */
  lemma OriginFacts()
    ensures 'u' !in Origin && '\\' !in Origin
    ensures |Origin| == 22 && Origin[0] == 'h' && Origin[21] == '/'
    ensures StartsWith(Origin, "http")
  {
  }

  /** Trimming and replacing do nothing to a clean string, so only the cut is left. */
  lemma CleanPathIsCut(t: string)
    requires '\\' !in t && Trimmed(t)
    ensures CleanPath(t) == CutAtMarker(t)
  {
    TrimOfTrimmed(t);
    ReplaceWithoutBackslash(t);
  }

  /** The cut finds an upload path after the origin, and otherwise keeps the whole address. */
  lemma OriginCut(p: string)
    requires IndexOf(p, Marker) == -1 || IndexOf(p, Marker) == 0
    ensures CutAtMarker(Origin + p) == if IndexOf(p, Marker) == 0 then p else Origin + p
    ensures Absolute(Origin + p)
  {
    OriginFacts();
    MarkerAfterPrefix(Origin, p);
    if IndexOf(p, Marker) == 0 {
      assert (Origin + p)[|Origin|..] == p;
    }
    ExtendStartsWith(Origin, p, "http");
  }

  /** A prefix of `a` is a prefix of every extension of `a`. */
  lemma ExtendStartsWith(a: string, b: string, pre: string)
    requires StartsWith(a, pre)
    ensures StartsWith(a + b, pre)
  {
    assert (a + b)[..|pre|] == a[..|pre|];
  }

  /** A clean path under the origin is still trimmed and free of backslashes. */
  lemma OriginPrefixClean(p: string)
    requires '\\' !in p && Trimmed(p)
    ensures '\\' !in Origin + p && Trimmed(Origin + p) && Origin + p != []
  {
    var t := Origin + p;
    OriginFacts();
    assert t[0] == 'h';
    if p != [] {
      assert t[|t| - 1] == p[|p| - 1];
    } else {
      assert t[|t| - 1] == '/';
    }
  }

  /** A relative clean path under the origin cleans to itself, or back to the path when it is an upload. */
  lemma OriginPathIsClean(p: string)
    requires '\\' !in p && Trimmed(p)
    requires IndexOf(p, Marker) == -1 || IndexOf(p, Marker) == 0
    requires !Absolute(p)
    ensures ImageSrc(Some(Origin + p)) == Address(Origin + p)
  {
    var t := Origin + p;
    OriginPrefixClean(p);
    CleanPathIsCut(t);
    OriginCut(p);
    var c := CleanPath(t);
    if IndexOf(p, Marker) == 0 {
      assert c == p && !Absolute(c);
    } else {
      assert c == t && Absolute(c);
    }
    OriginAddressResolves(t, c, p);
  }

  /** The last step: the address under the origin is either kept whole or rebuilt from the upload path. */
  lemma OriginAddressResolves(t: string, c: string, p: string)
    requires t != "" && c == CleanPath(t) && t == Origin + p
    requires (c == p && !Absolute(c)) || (c == t && Absolute(c))
    ensures ImageSrc(Some(t)) == Address(t)
  {
  }

  /**
   * Given the identity the backend sees and a populated creator, the buttons
   * appear exactly when the backend would let that identity edit or delete.
   */
  lemma CanManageMatchesBackend(caller: Identity, e: Event)
    ensures CanManage(Some(ClientUser(caller.userId, caller.role)), Some(e.createdBy)) <==> Catalog.MayManage(caller, e)
    ensures !CanManage(None, Some(e.createdBy))
  {
  }
}
