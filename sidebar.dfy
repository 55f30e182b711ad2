/**
 * The navigation table of the layout (src/components/Sidebar.jsx): which entries a role sees,
 * and which entry is highlighted for the current path. Icons are left out.
 */
module Sidebar {
  import opened JsBuiltins

  /** An entry of `NAV`; `title` is the entry's `label`. */
  datatype NavItem = NavItem(to: string, title: string, color: string, roles: seq<string>)

  const Everyone: seq<string> := ["admin", "sub_admin"]
  const AdminOnly: seq<string> := ["admin"]

  /** `NAV`. */
  const Nav: seq<NavItem> := [
    NavItem("/dashboard", "Dashboard", "#f97316", Everyone),
    NavItem("/members", "Members", "#3b82f6", Everyone),
    NavItem("/attendance", "Attendance", "#a855f7", Everyone),
    NavItem("/payments", "Payments", "#22c55e", Everyone),
    NavItem("/expired-alerts", "Expired Alerts", "#ef4444", Everyone),
    NavItem("/reports", "Reports", "#eab308", AdminOnly),
    NavItem("/admins", "Admins", "#ec4899", AdminOnly),
    NavItem("/settings", "Settings", "#94a3b8", Everyone)
  ]

  /** The test `item.roles.includes(role)`. */
  function ListsRole(role: string): NavItem -> bool {
    (item: NavItem) => role in item.roles
  }

  /** `visibleNav`: the entries that list the signed-in role, in table order. */
  function VisibleNav(role: string): (r: seq<NavItem>)
    ensures forall item :: item in r <==> item in Nav && role in item.roles
    ensures SubsequenceOf(r, Nav)
  {
    FilterMembers(Nav, ListsRole(role));
    FilterSubsequence(Nav, ListsRole(role));
    Filter(Nav, ListsRole(role))
  }

  /** Entries 5 and 6 (`/reports`, `/admins`) are for `admin` only; the others for both roles. */
  lemma RolesOfNav()
    ensures forall k :: 0 <= k < |Nav| ==> Nav[k].roles == (if k == 5 || k == 6 then AdminOnly else Everyone)
    ensures Nav[5].to == "/reports" && Nav[6].to == "/admins"
  {
  }

  /** Role `admin` is listed in every entry, so it sees the whole table in order. */
  lemma AdminSeesAll()
    ensures VisibleNav("admin") == Nav
  {
    RolesOfNav();
    FilterAll(Nav, ListsRole("admin"));
  }

  /** Role `sub_admin` sees every entry except `/reports` and `/admins`, in order. */
  lemma SubAdminView()
    ensures VisibleNav("sub_admin") == Nav[..5] + [Nav[7]]
  {
    RolesOfNav();
    FilterDropsFiveAndSix(Nav, ListsRole("sub_admin"));
  }

  /** A filter over eight elements that rejects exactly elements 5 and 6. */
  lemma FilterDropsFiveAndSix<E>(s: seq<E>, keep: E -> bool)
    requires |s| == 8
    requires forall k :: 0 <= k < 8 ==> keep(s[k]) == (k != 5 && k != 6)
    ensures Filter(s, keep) == s[..5] + [s[7]]
  {
    var front, hidden, last := s[..5], s[5..7], s[7..];
    assert s == front + (hidden + last);
    FilterAppend(front, hidden + last, keep);
    FilterAppend(hidden, last, keep);
    FilterAll(front, keep);
    assert Filter(hidden, keep) == [] by {
      FilterMembers(hidden, keep);
    }
    assert Filter(last, keep) == [s[7]] by {
      assert last == [s[7]];
    }
  }

  /** A role that no entry lists sees no entry at all. */
  lemma UnlistedRoleSeesNothing(role: string)
    requires role != "admin" && role != "sub_admin"
    ensures VisibleNav(role) == []
  {
    RolesOfNav();
  }

  /** `location.pathname.startsWith(to)`. */
  predicate IsActive(pathname: string, item: NavItem) {
    StartsWith(pathname, item.to)
  }

  /** No entry's path is a prefix of another's, so at most one entry is active for any path. */
  lemma AtMostOneActive(pathname: string, i: nat, j: nat)
    requires i < |Nav| && j < |Nav|
    requires IsActive(pathname, Nav[i]) && IsActive(pathname, Nav[j])
    ensures i == j
  {
    PrefixesOfOnePath(pathname, Nav[i].to, Nav[j].to);
    NavPrefixFree();
  }

  /** Two prefixes of one text: the shorter is a prefix of the longer. */
  lemma PrefixesOfOnePath(p: string, a: string, b: string)
    ensures StartsWith(p, a) && StartsWith(p, b) ==> StartsWith(a, b) || StartsWith(b, a)
  {
    if StartsWith(p, a) && StartsWith(p, b) {
      if |a| <= |b| {
        assert b[..|a|] == p[..|b|][..|a|] == a;
      } else {
        assert a[..|b|] == p[..|a|][..|b|] == b;
      }
    }
  }

  /** No path of the table starts with another entry's path. */
  lemma NavPrefixFree()
    ensures forall i, j :: 0 <= i < |Nav| && 0 <= j < |Nav| && i != j ==> !StartsWith(Nav[i].to, Nav[j].to)
  {
    KeysOfNav();
    KeysDistinct();
    forall i, j | 0 <= i < |Nav| && 0 <= j < |Nav| && i != j
      ensures !StartsWith(Nav[i].to, Nav[j].to)
    {
      PathsDiffer(Nav[i].to, Nav[j].to);
    }
  }

  /** Characters 1 and 2 of each entry's path; they tell the entries apart. */
  const PathKeys: seq<string> := ["da", "me", "at", "pa", "ex", "re", "ad", "se"]

  lemma KeysOfNav()
    ensures forall k :: 0 <= k < |Nav| ==> |Nav[k].to| >= 3 && Nav[k].to[1..3] == PathKeys[k]
  {
  }

  lemma KeysDistinct()
    ensures forall i, j :: 0 <= i < j < |PathKeys| ==> PathKeys[i] != PathKeys[j]
  {
  }

  /** Two paths that differ in characters 1 and 2 do not start one another. */
  lemma PathsDiffer(x: string, y: string)
    requires |x| >= 3 && |y| >= 3 && x[1..3] != y[1..3]
    ensures !StartsWith(x, y) && !StartsWith(y, x)
  {
  }
}
