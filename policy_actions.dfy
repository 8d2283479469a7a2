/** The agent-facing policy reports (policy/PolicyActions.java). */
module PolicyActions {
  import opened Wrappers
  import opened Text
  import opened Policy

  const RestrictedPrefix: string := "\U{274C} Action RESTRICTED: "
  const RestrictedNote: string := "\nThis action cannot be executed autonomously for safety reasons."
  const ConfirmationPrefix: string := "\U{26A0}\U{FE0F} CONFIRMATION REQUIRED: "
  const ConfirmationNote: string := "\nThis action can be executed but requires human confirmation first."
  const AllowedPrefix: string := "\U{2705} Action ALLOWED: "

  /**
   * checkActionPolicy: the report opens with the restricted marker exactly when validation refuses
   * the action, with the confirmation marker exactly when the action is allowed but needs
   * confirmation, and is the fixed "allowed" sentence otherwise.
   */
  function CheckActionPolicy(actionName: string): (r: string)
    ensures StartsWith(r, RestrictedPrefix) <==> !Validate(actionName).allowed
    ensures StartsWith(r, ConfirmationPrefix) <==> Validate(actionName).allowed && RequiresConfirmation(actionName)
    ensures !StartsWith(r, RestrictedPrefix) && !StartsWith(r, ConfirmationPrefix) ==>
              r == AllowedPrefix + AllowedReason
    ensures !Validate(actionName).allowed ==> r == RestrictedPrefix + RestrictedReason(actionName) + RestrictedNote
  {
    var result := Validate(actionName);
    if !result.allowed then
      var r := RestrictedPrefix + result.reason + RestrictedNote;
      OpensWith(RestrictedPrefix, result.reason, RestrictedNote, ConfirmationPrefix);
      r
    else if RequiresConfirmation(actionName) then
      var r := ConfirmationPrefix + result.reason + ConfirmationNote;
      OpensWith(ConfirmationPrefix, result.reason, ConfirmationNote, RestrictedPrefix);
      r
    else
      var r := AllowedPrefix + result.reason;
      OpensWith(AllowedPrefix, result.reason, "", RestrictedPrefix);
      OpensWith(AllowedPrefix, result.reason, "", ConfirmationPrefix);
      assert r + "" == r;
      r
  }

  /** A report opens with its own marker, and not with a marker whose first character differs. */
  lemma OpensWith(prefix: string, reason: string, note: string, other: string)
    requires |prefix| > 0 && |other| > 0 && prefix[0] != other[0]
    ensures StartsWith(prefix + reason + note, prefix)
    ensures !StartsWith(prefix + reason + note, other)
  {
    var r := prefix + reason + note;
    assert r[..|prefix|] == prefix;
    assert r[0] == prefix[0];
    if |other| <= |r| {
      assert r[..|other|][0] == r[0];
    }
  }

  const RestrictedHeader: string := "\U{1F6AB} RESTRICTED ACTIONS (Cannot Execute):\n\n"
  const RestrictedFooter: string := "\nThese actions are blocked for safety and require human intervention."
  const ConfirmationHeader: string := "\U{26A0}\U{FE0F} ACTIONS REQUIRING CONFIRMATION:\n\n"
  const ConfirmationFooter: string := "\nThese actions can be executed but need human approval first."
  const BulletMark: string := "  \U{2022} "

  /** One listed action: the bullet, the name, a line feed. */
  function Bullet(actionName: string): string {
    BulletMark + actionName + "\n"
  }

  /** The bullet lines for `names`, in order. */
  function BulletList(names: seq<string>): string {
    if |names| == 0 then "" else Bullet(names[0]) + BulletList(names[1..])
  }

  lemma {:induction false} BulletListSnoc(names: seq<string>, last: string)
    ensures BulletList(names + [last]) == BulletList(names) + Bullet(last)
  {
    if |names| == 0 {
      assert names + [last] == [last];
    } else {
      assert (names + [last])[1..] == names[1..] + [last];
      BulletListSnoc(names[1..], last);
    }
  }

  /** `order` lists every member of `s` exactly once (an iteration order of the set). */
  ghost predicate Enumerates(order: seq<string>, s: set<string>) {
    (forall a :: a in order <==> a in s)
    && (forall i, j :: 0 <= i < j < |order| ==> order[i] != order[j])
  }

  /** The whole report: header, one bullet line per name, footer. */
  function Listing(header: string, names: seq<string>, footer: string): string {
    header + BulletList(names) + footer
  }

  /** Appends the bullet lines of `names` to `prefix`, as the StringBuilder loop does. */
  method AppendBullets(prefix: string, names: seq<string>) returns (sb: string)
    ensures sb == prefix + BulletList(names)
  {
    sb := prefix;
    var i := 0;
    while i < |names|
      invariant 0 <= i <= |names|
      invariant sb == prefix + BulletList(names[..i])
    {
      BulletListSnoc(names[..i], names[i]);
      assert names[..i + 1] == names[..i] + [names[i]];
      sb := sb + Bullet(names[i]);
      i := i + 1;
    }
    assert names[..i] == names;
  }

  /** listRestrictedActions, with `order` the iteration order of the restricted set. */
  method ListRestrictedActions(order: seq<string>) returns (r: string)
    requires Enumerates(order, GetRestrictedActions())
    ensures r == Listing(RestrictedHeader, order, RestrictedFooter)
  {
    var sb := AppendBullets(RestrictedHeader, order);
    r := sb + RestrictedFooter;
  }

  /** listConfirmationActions, with `order` the iteration order of the confirmation set. */
  method ListConfirmationActions(order: seq<string>) returns (r: string)
    requires Enumerates(order, GetConfirmationActions())
    ensures r == Listing(ConfirmationHeader, order, ConfirmationFooter)
  {
    var sb := AppendBullets(ConfirmationHeader, order);
    r := sb + ConfirmationFooter;
  }

  /** Reads bullet lines back into the names they list; `None` on text of any other shape. */
  function ParseBullets(t: string): (r: Option<seq<string>>)
    decreases |t|
  {
    if |t| == 0 then Some([])
    else if !StartsWith(t, BulletMark) then None
    else
      var rest := t[|BulletMark|..];
      var k := IndexOf(rest, "\n");
      if k < 0 then None
      else
        match ParseBullets(rest[k + 1..])
        case None => None
        case Some(names) => Some([rest[..k]] + names)
  }

  /** Reads a whole report back into its names, given its header and footer. */
  function ParseListing(header: string, footer: string, t: string): Option<seq<string>> {
    if |header| + |footer| <= |t| && StartsWith(t, header) && EndsWith(t, footer) then
      ParseBullets(t[|header|..|t| - |footer|])
    else None
  }

  lemma FirstLineFeed(name: string, tail: string)
    requires '\n' !in name
    ensures IndexOf(name + "\n" + tail, "\n") == |name|
  {
    var s := name + "\n" + tail;
    assert OccursAt(s, "\n", |name|) by {
      assert s[|name|..|name| + 1] == "\n";
    }
    forall i | 0 <= i < |name|
      ensures !OccursAt(s, "\n", i)
    {
      assert s[i..i + 1][0] == s[i] == name[i];
    }
  }

  /** Bullet lines of names without line feeds read back to exactly those names, in order. */
  lemma {:induction false} ParseBulletList(names: seq<string>)
    requires forall i :: 0 <= i < |names| ==> '\n' !in names[i]
    ensures ParseBullets(BulletList(names)) == Some(names)
    decreases |names|
  {
    if |names| > 0 {
      var t := BulletList(names);
      var tail := BulletList(names[1..]);
      assert t == BulletMark + (names[0] + "\n" + tail);
      assert t[..|BulletMark|] == BulletMark;
      var rest := t[|BulletMark|..];
      assert rest == names[0] + "\n" + tail;
      FirstLineFeed(names[0], tail);
      assert rest[..|names[0]|] == names[0];
      assert rest[|names[0]| + 1..] == tail;
      ParseBulletList(names[1..]);
      assert [names[0]] + names[1..] == names;
    }
  }

  /** A report reads back to its names, in order, whatever its header and footer. */
  lemma ListingReadsBack(header: string, names: seq<string>, footer: string)
    requires forall i :: 0 <= i < |names| ==> '\n' !in names[i]
    ensures ParseListing(header, footer, Listing(header, names, footer)) == Some(names)
  {
    var t := Listing(header, names, footer);
    assert t[..|header|] == header;
    assert t[|t| - |footer|..] == footer;
    assert t[|header|..|t| - |footer|] == BulletList(names);
    ParseBulletList(names);
  }

  /**
   * The restricted report lists every restricted action on a line of its own, each exactly once:
   * the lines read back to the iteration order, which holds the set without repetition.
   */
  lemma RestrictedListingHasOneLinePerAction(order: seq<string>)
    requires Enumerates(order, GetRestrictedActions())
    ensures ParseListing(RestrictedHeader, RestrictedFooter, Listing(RestrictedHeader, order, RestrictedFooter)) == Some(order)
    ensures forall a :: a in order <==> !IsActionAllowed(a)
  {
    forall i | 0 <= i < |order|
      ensures '\n' !in order[i]
    {
      assert order[i] in RestrictedActions;
    }
    ListingReadsBack(RestrictedHeader, order, RestrictedFooter);
  }

  /** The confirmation report lists every confirmation action on a line of its own, each exactly once. */
  lemma ConfirmationListingHasOneLinePerAction(order: seq<string>)
    requires Enumerates(order, GetConfirmationActions())
    ensures ParseListing(ConfirmationHeader, ConfirmationFooter, Listing(ConfirmationHeader, order, ConfirmationFooter)) == Some(order)
    ensures forall a :: a in order <==> RequiresConfirmation(a)
  {
    forall i | 0 <= i < |order|
      ensures '\n' !in order[i]
    {
      assert order[i] in ConfirmationRequired;
    }
    ListingReadsBack(ConfirmationHeader, order, ConfirmationFooter);
  }
}
