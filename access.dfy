/**
 * Who may use the bot. `ALLOWED` is read once from the comma-separated
 * `ALLOWED_TG_IDS` setting; an empty allowlist lets everybody in, otherwise
 * a user is let in when the decimal form of their Telegram id is listed.
 */
module Access {
  import opened Text

  /** `{x.strip() for x in raw.split(",") if x.strip()}`. */
  function ParseAllowlist(raw: string): (allowed: set<string>)
    ensures forall p :: p in SplitOn(raw, ',') && Strip(p) != [] ==> Strip(p) in allowed
    ensures forall a :: a in allowed ==> exists p :: p in SplitOn(raw, ',') && Strip(p) == a && a != []
  {
    set p | p in SplitOn(raw, ',') && Strip(p) != [] :: Strip(p)
  }

  /** `access(uid)`. */
  predicate MayUse(uid: int, allowed: set<string>)
  {
    allowed == {} || IntToString(uid) in allowed
  }

  /** Every entry of the allowlist is non-empty, already stripped and free of commas. */
  lemma AllowlistEntriesAreClean(raw: string)
    ensures forall a :: a in ParseAllowlist(raw) ==> a != [] && Strip(a) == a && ',' !in a
  {
    forall a | a in ParseAllowlist(raw) ensures a != [] && Strip(a) == a && ',' !in a {
      var p :| p in SplitOn(raw, ',') && Strip(p) == a && a != [];
      StripIsSlice(p);
      StripUnpadded(a);
      StripKeepsOut(p, ',');
    }
  }

  /**
   * A setting with no non-blank entry lets every user in; otherwise a user is
   * let in exactly when some entry, stripped, is the decimal form of their id.
   */
  lemma MayUseUnderSetting(raw: string, uid: int)
    ensures (forall p :: p in SplitOn(raw, ',') ==> Strip(p) == []) ==> MayUse(uid, ParseAllowlist(raw))
    ensures (exists p :: p in SplitOn(raw, ',') && Strip(p) != []) ==>
              (MayUse(uid, ParseAllowlist(raw)) <==> exists p :: p in SplitOn(raw, ',') && Strip(p) == IntToString(uid))
  {
    var allowed := ParseAllowlist(raw);
    if forall p :: p in SplitOn(raw, ',') ==> Strip(p) == [] {
      assert allowed == {};
    } else {
      var q :| q in SplitOn(raw, ',') && Strip(q) != [];
      assert Strip(q) in allowed;
    }
  }

  /**
   * An entry with a leading zero or a sign other than a leading minus never
   * matches any id: `str(uid)` has neither, so `007` or `+7` admits nobody.
   */
  lemma NonCanonicalEntryAdmitsNobody(entry: string, uid: int)
    requires |entry| >= 2 && (entry[0] == '0' || entry[0] == '+')
    ensures IntToString(uid) != entry
  {
    NatToStringIsCanonical(if uid < 0 then -uid else uid);
  }
}
