/** Which header navigation link is highlighted for the current path. */
module Header {

  import opened Text

  const Home: string := "/"
  const MissionsHref: string := "/missions"
  const NewMissionHref: string := "/missions/new"
  const DetailPrefix: string := "/missions/"

  /** The anchored pattern `^/missions/\d+$`: the prefix followed by one or
      more ASCII digits and nothing else. */
  predicate IsMissionDetailPath(p: string) {
    |p| > |DetailPrefix| && DetailPrefix <= p && AllDigits(p[|DetailPrefix|..])
  }

  /** The pattern, read as "the prefix, then a non-empty run of digits". */
  lemma {:induction false} DetailPathShape(p: string)
    ensures IsMissionDetailPath(p) <==> exists d :: |d| >= 1 && AllDigits(d) && p == DetailPrefix + d
  {
    if IsMissionDetailPath(p) {
      var d := p[|DetailPrefix|..];
      assert p == DetailPrefix + d;
    }
    if exists d :: |d| >= 1 && AllDigits(d) && p == DetailPrefix + d {
      var d :| |d| >= 1 && AllDigits(d) && p == DetailPrefix + d;
      assert p[|DetailPrefix|..] == d;
    }
  }

  /** `isActive` of a `NavLink`. */
  predicate IsActive(href: string, pathname: string): (active: bool)
    ensures pathname == href ==> active
    ensures active ==> pathname == href || (href == MissionsHref && IsMissionDetailPath(pathname))
  {
    if href == Home then pathname == Home
    else if href == MissionsHref then pathname == MissionsHref || IsMissionDetailPath(pathname)
    else pathname == href
  }

  /** The home link is lit on the root path only. */
  lemma HomeActive(pathname: string)
    ensures IsActive(Home, pathname) <==> pathname == "/"
  {
  }

  /** The missions link is lit on the list and on every mission's detail
      page, and nowhere else. */
  lemma {:induction false} MissionsActive(pathname: string)
    ensures IsActive(MissionsHref, pathname) <==>
      pathname == "/missions" || exists d :: |d| >= 1 && AllDigits(d) && pathname == "/missions/" + d
  {
    DetailPathShape(pathname);
  }

  /** The creation page does not light the missions link: `new` is not a
      run of digits. */
  lemma NewPageIsNotMissions()
    ensures !IsActive(MissionsHref, NewMissionHref)
    ensures IsActive(NewMissionHref, NewMissionHref)
  {
    assert !IsDigit(NewMissionHref[|DetailPrefix|..][0]);
  }

  /** Every other link is lit exactly on its own path. */
  lemma OtherActive(href: string, pathname: string)
    requires href != Home && href != MissionsHref
    ensures IsActive(href, pathname) <==> pathname == href
  {
  }

  /** The detail page of mission `id`, as the list links to it, lights the
      missions link. */
  lemma {:induction false} DetailPageActivatesMissions(id: nat)
    ensures IsActive(MissionsHref, DetailPrefix + NatToString(id))
    ensures !IsActive(Home, DetailPrefix + NatToString(id))
    ensures !IsActive(NewMissionHref, DetailPrefix + NatToString(id))
  {
    var d := NatToString(id);
    var p := DetailPrefix + d;
    assert p[|DetailPrefix|..] == d;
    assert IsMissionDetailPath(p);
  }

  /** At most one of the three header links is lit on any path. */
  lemma {:induction false} AtMostOneActive(pathname: string)
    ensures !(IsActive(Home, pathname) && IsActive(MissionsHref, pathname))
    ensures !(IsActive(Home, pathname) && IsActive(NewMissionHref, pathname))
    ensures !(IsActive(MissionsHref, pathname) && IsActive(NewMissionHref, pathname))
  {
    if pathname == NewMissionHref {
      NewPageIsNotMissions();
    }
  }
}
