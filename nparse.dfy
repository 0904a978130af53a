/** Pod names `[prefix-]user-instance`: splitting them, resolving a requested
    name into the canonical container name under the ownership rules, and the
    image filter that decides which runtime images a user may see. */
module NameParse {
  import opened Wrappers
  import opened Strings
  import Seqs
  import opened PodyConfig

  /** The pieces of a pod name; a missing piece is `None`. */
  datatype NameComponents = NameComponents(prefix: Option<string>, username: Option<string>, instance: string)

  /** The identity of the requesting user, as the resolver sees it. */
  datatype UserRecord = UserRecord(userid: int, name: string, isAdmin: bool)

  /** The name text the components came from. */
  function Rejoin(c: NameComponents): string
  {
    (if c.prefix.Some? then c.prefix.value + "-" else "")
    + (if c.username.Some? then c.username.value + "-" else "")
    + c.instance
  }

  /** `split_name_component(ins_name, check)` with the configured `name_prefix`
      (the empty prefix is "not set"). */
  function SplitNameComponent(insName: string, check: bool, namePrefix: string): (r: Option<NameComponents>)
    ensures check && r.Some? ==>
      r.value.username.Some?
      && (r.value.prefix.Some? <==> namePrefix != "")
      && (r.value.prefix.Some? ==> r.value.prefix.value == namePrefix)
    ensures !check && '-' !in insName ==> r == Some(NameComponents(None, None, insName))
  {
    if '-' !in insName then
      if check then None else Some(NameComponents(None, None, insName))
    else
      var sp := Split(insName, '-');
      if |sp| == 2 then
        if check && namePrefix != "" then None
        else Some(NameComponents(None, Some(sp[0]), sp[1]))
      else if |sp| == 3 then
        if check && namePrefix != "" && sp[0] != namePrefix then None
        else if check && namePrefix == "" then None
        else Some(NameComponents(Some(sp[0]), Some(sp[1]), sp[2]))
      else None
  }

  /** The split never loses text, the instance part never holds a dash, and
      strict mode always finds a username. */
  lemma SplitNameComponentRejoins(insName: string, check: bool, namePrefix: string)
    ensures var r := SplitNameComponent(insName, check, namePrefix);
      r.Some? ==> Rejoin(r.value) == insName && '-' !in r.value.instance
    ensures var r := SplitNameComponent(insName, check, namePrefix);
      r.Some? && check ==> r.value.username.Some?
  {
    if '-' in insName {
      var sp := Split(insName, '-');
      JoinSplit(insName, '-');
      SplitPartsSepFree(insName, '-');
      if |sp| == 2 {
        assert sp == [sp[0], sp[1]];
        RejoinTwo(sp[0], sp[1]);
        assert '-' !in sp[1];
      } else if |sp| == 3 {
        assert sp == [sp[0], sp[1], sp[2]];
        RejoinThree(sp[0], sp[1], sp[2]);
        assert '-' !in sp[2];
      }
    } else {
      assert "" + "" + insName == insName;
    }
  }

  /** A user and an instance rejoin as the two pieces joined by a dash. */
  lemma RejoinTwo(a: string, b: string)
    ensures Rejoin(NameComponents(None, Some(a), b)) == Join([a, b], "-")
  {
    JoinTwo(a, b, "-");
  }

  /** A prefix, a user and an instance rejoin as the three pieces joined by dashes. */
  lemma RejoinThree(a: string, b: string, c: string)
    ensures Rejoin(NameComponents(Some(a), Some(b), c)) == Join([a, b, c], "-")
  {
    JoinThree(a, b, c, "-");
    assert (a + "-") + (b + "-") + c == a + "-" + b + "-" + c;
  }

  /** `fmt_name`: the canonical container name of `username`'s pod `instance`. */
  function FmtName(namePrefix: string, username: string, instance: string): string
  {
    if namePrefix == "" then username + "-" + instance
    else namePrefix + "-" + username + "-" + instance
  }

  /** `get_user_pod_prefix`: the text every pod name of `username` starts with. */
  function GetUserPodPrefix(namePrefix: string, username: string): (r: string)
    ensures forall instance :: r <= FmtName(namePrefix, username, instance)
  {
    if namePrefix != "" then namePrefix + "-" + username + "-" else username + "-"
  }

  /** `eval_name_raise`: the container name a request for `ins` by `user` refers to. */
  function EvalNameRaise(ins: string, user: UserRecord, namePrefix: string): (r: Result<string>)
    ensures SplitNameComponent(ins, false, namePrefix).None? ==> r == Err(InvalidInput("Invalid pod name: " + ins))
    ensures r.Ok? && !user.isAdmin ==> GetUserPodPrefix(namePrefix, user.name) <= r.value
  {
    var res := SplitNameComponent(ins, false, namePrefix);
    if res.None? then Err(InvalidInput("Invalid pod name: " + ins))
    else
      var c := res.value;
      if c.prefix.Some? && c.prefix.value != namePrefix then
        Err(InsufficientPermissions("Invalid pod name, please check prefix"))
      else if !user.isAdmin then
        if c.username.Some? && c.username.value != user.name then
          Err(InsufficientPermissions("Invalid pod name, please check the username"))
        else Ok(FmtName(namePrefix, user.name, c.instance))
      else if c.username.None? then Ok(FmtName(namePrefix, user.name, c.instance))
      // the admin branch re-checks the prefix; the check above already covers it
      else if c.prefix.Some? && c.prefix.value != "" && c.prefix.value != namePrefix then
        Err(InvalidInput("Invalid pod name, please check prefix"))
      else Ok(FmtName(namePrefix, c.username.value, c.instance))
  }

  // ---------------------------------------------------------------------
  // properties of the splitter

  /** Strict mode with a prefix configured: `p-u-i` splits back into its parts. */
  lemma StrictRoundTripPrefixed(p: string, u: string, i: string)
    requires p != "" && '-' !in p && '-' !in u && '-' !in i
    ensures SplitNameComponent(p + "-" + u + "-" + i, true, p) == Some(NameComponents(Some(p), Some(u), i))
  {
    assert p + "-" + u + "-" + i == p + ['-'] + u + ['-'] + i;
    SplitThree(p, u, i, '-');
    assert (p + "-" + u + "-" + i)[|p|] == '-';
  }

  /** Strict mode without a prefix: `u-i` splits back into its parts. */
  lemma StrictRoundTripUnprefixed(u: string, i: string)
    requires '-' !in u && '-' !in i
    ensures SplitNameComponent(u + "-" + i, true, "") == Some(NameComponents(None, Some(u), i))
  {
    assert u + "-" + i == u + ['-'] + i;
    SplitTwo(u, i, '-');
    assert (u + "-" + i)[|u|] == '-';
  }

  /** A dash-free name is rejected in strict mode and is a bare instance in lenient mode. */
  lemma DashFreeName(name: string, namePrefix: string)
    requires '-' !in name
    ensures SplitNameComponent(name, true, namePrefix) == None
    ensures SplitNameComponent(name, false, namePrefix) == Some(NameComponents(None, None, name))
  {}

  /** More than three parts never split; in strict mode two parts need an
      unset prefix and three parts need the first to be the set prefix. */
  lemma SplitShapeRules(name: string, check: bool, namePrefix: string)
    ensures |Split(name, '-')| > 3 ==> SplitNameComponent(name, check, namePrefix) == None
    ensures check && |Split(name, '-')| == 2 ==>
      (SplitNameComponent(name, check, namePrefix).Some? <==> namePrefix == "")
    ensures check && |Split(name, '-')| == 3 ==>
      (SplitNameComponent(name, check, namePrefix).Some? <==>
         namePrefix != "" && Split(name, '-')[0] == namePrefix)
  {
    if '-' !in name {
      SplitNoSep(name, '-');
    }
  }

  // ---------------------------------------------------------------------
  // properties of the resolver

  /** The resolver reports invalid input exactly when the lenient split fails. */
  lemma EvalInvalidInputIff(ins: string, user: UserRecord, namePrefix: string)
    ensures (EvalNameRaise(ins, user, namePrefix).Err? && EvalNameRaise(ins, user, namePrefix).error.InvalidInput?)
        <==> SplitNameComponent(ins, false, namePrefix).None?
  {}

  /** A prefix segment other than the configured prefix is a permission error. */
  lemma EvalForeignPrefix(ins: string, user: UserRecord, namePrefix: string)
    requires SplitNameComponent(ins, false, namePrefix).Some?
    requires SplitNameComponent(ins, false, namePrefix).value.prefix.Some?
    requires SplitNameComponent(ins, false, namePrefix).value.prefix.value != namePrefix
    ensures EvalNameRaise(ins, user, namePrefix) == Err(InsufficientPermissions("Invalid pod name, please check prefix"))
  {}

  /** A non-admin naming another user's pod always gets a permission error. */
  lemma EvalNonAdminForeignUser(ins: string, user: UserRecord, namePrefix: string)
    requires !user.isAdmin
    requires SplitNameComponent(ins, false, namePrefix).Some?
    requires SplitNameComponent(ins, false, namePrefix).value.username.Some?
    requires SplitNameComponent(ins, false, namePrefix).value.username.value != user.name
    ensures EvalNameRaise(ins, user, namePrefix).Err?
    ensures EvalNameRaise(ins, user, namePrefix).error.InsufficientPermissions?
  {}

  /** Whatever a non-admin resolves successfully is one of their own pods:
      it is `fmt_name(user.name, instance)` and so carries their pod prefix. */
  lemma EvalNonAdminOwnPod(ins: string, user: UserRecord, namePrefix: string)
    requires !user.isAdmin && EvalNameRaise(ins, user, namePrefix).Ok?
    ensures SplitNameComponent(ins, false, namePrefix).Some?
    ensures EvalNameRaise(ins, user, namePrefix).value
         == FmtName(namePrefix, user.name, SplitNameComponent(ins, false, namePrefix).value.instance)
    ensures GetUserPodPrefix(namePrefix, user.name) <= EvalNameRaise(ins, user, namePrefix).value
  {}

  /** An admin gets the named user's pod, or their own when no user is named. */
  lemma EvalAdmin(ins: string, user: UserRecord, namePrefix: string)
    requires user.isAdmin
    requires SplitNameComponent(ins, false, namePrefix).Some?
    requires SplitNameComponent(ins, false, namePrefix).value.prefix.None?
          || SplitNameComponent(ins, false, namePrefix).value.prefix.value == namePrefix
    ensures var c := SplitNameComponent(ins, false, namePrefix).value;
      EvalNameRaise(ins, user, namePrefix)
        == Ok(FmtName(namePrefix, if c.username.Some? then c.username.value else user.name, c.instance))
  {}

  /** Resolving a canonical pod name gives the same name back, for its owner and for an admin. */
  lemma EvalCanonicalName(namePrefix: string, u: string, i: string, user: UserRecord)
    requires '-' !in namePrefix && '-' !in u && '-' !in i
    requires user.name == u || user.isAdmin
    ensures EvalNameRaise(FmtName(namePrefix, u, i), user, namePrefix) == Ok(FmtName(namePrefix, u, i))
  {
    var name := FmtName(namePrefix, u, i);
    if namePrefix == "" {
      assert name == u + ['-'] + i;
      SplitTwo(u, i, '-');
      assert name[|u|] == '-';
    } else {
      assert name == namePrefix + ['-'] + u + ['-'] + i;
      SplitThree(namePrefix, u, i, '-');
      assert name[|namePrefix|] == '-';
    }
  }

  // ---------------------------------------------------------------------
  // image filter

  /** A configured image matches by exact name, or, when untagged, as `name:<tag>`. */
  predicate MatchesConfig(c: ImageConfig, q: string)
  {
    c.name == q || (':' !in c.name && c.name + ":" <= q)
  }

  /** The loop over `image_configs`: the first configuration that matches. */
  function FirstMatching(configs: seq<ImageConfig>, q: string): (r: Option<ImageConfig>)
    ensures r.Some? ==> exists k :: (0 <= k < |configs| && configs[k] == r.value
      && MatchesConfig(configs[k], q) && (forall j :: 0 <= j < k ==> !MatchesConfig(configs[j], q)))
    ensures r.None? <==> forall k :: 0 <= k < |configs| ==> !MatchesConfig(configs[k], q)
  {
    if configs == [] then None
    else if MatchesConfig(configs[0], q) then Some(configs[0])
    else
      var r := FirstMatching(configs[1..], q);
      if r.Some? then
        var k :| 0 <= k < |configs[1..]| && configs[1..][k] == r.value
          && MatchesConfig(configs[1..][k], q) && forall j :: 0 <= j < k ==> !MatchesConfig(configs[1..][j], q);
        assert configs[k + 1] == r.value;
        r
      else r
  }

  /** `ImageFilter(config, raw_images, username)`; `commit_name` and
      `commit_image_ports` are the configuration entries for commit images. */
  datatype ImageFilter = ImageFilter(
    config: Config,
    rawImages: seq<string>,
    username: Option<string>,
    commitName: string,
    commitImagePorts: seq<int>)
  {
    /** `f"{self.username}"`: Python renders a missing name as "None". */
    function UserText(): string
    {
      if username.Some? then username.value else "None"
    }

    /** `self.username` is truthy. */
    predicate HasUser()
    {
      username.Some? && username.value != ""
    }

    /** `is_user_image`: `commit:<user>` or `commit:<user>-<anything>`. A
        user image always starts with the user's commit image name, and that
        name itself is always one. */
    predicate IsUserImage(q: string): (b: bool)
      ensures b ==> commitName + ":" + UserText() <= q
      ensures q == commitName + ":" + UserText() ==> b
    {
      var own := commitName + ":" + UserText();
      q == own || own + "-" <= q
    }

    /** `query_config`. */
    function QueryConfig(q: string): (r: Option<ImageConfig>)
      ensures r.Some? ==> q in rawImages
      ensures r.Some? && !(HasUser() && IsUserImage(q)) ==> r.value in config.images && MatchesConfig(r.value, q)
    {
      if q !in rawImages then None
      else if HasUser() && IsUserImage(q) then
        Some(ImageConfig(q, commitImagePorts, "User commit image"))
      else FirstMatching(config.images, q)
    }

    /** `__contains__`: a found configuration is always truthy. */
    predicate Contains(q: string)
      ensures Contains(q) ==> q in rawImages
    {
      QueryConfig(q).Some?
    }

    /** `list()` over `__iter__`: the raw images the filter lets through. */
    function List(): (r: seq<string>)
      ensures |r| <= |rawImages|
      ensures forall q :: q in r <==> q in rawImages && Contains(q)
    {
      Seqs.Filter(rawImages, q => Contains(q))
    }
  }

  // ---------------------------------------------------------------------
  // properties of the image filter

  /** `query_config` answers None off the runtime list, the commit-image
      configuration for the user's own commit images, and otherwise the first
      configured image that matches exactly or as an untagged name. */
  lemma QueryConfigCases(f: ImageFilter, q: string)
    ensures q !in f.rawImages ==> f.QueryConfig(q) == None
    ensures q in f.rawImages && f.HasUser() && f.IsUserImage(q) ==>
      f.QueryConfig(q) == Some(ImageConfig(q, f.commitImagePorts, "User commit image"))
    ensures q in f.rawImages && !(f.HasUser() && f.IsUserImage(q)) ==>
      (f.QueryConfig(q).Some? <==> exists k :: 0 <= k < |f.config.images| && MatchesConfig(f.config.images[k], q))
  {}

  /** `list()` keeps raw-image order and holds exactly the visible images. */
  lemma ListIsVisibleSubsequence(f: ImageFilter)
    ensures Seqs.IsSubseq(f.List(), f.rawImages)
    ensures forall q :: q in f.List() <==>
      q in f.rawImages
      && ((f.HasUser() && f.IsUserImage(q))
          || exists k :: 0 <= k < |f.config.images| && MatchesConfig(f.config.images[k], q))
    ensures forall q :: q in f.List() ==> multiset(f.List())[q] == multiset(f.rawImages)[q]
  {
    Seqs.FilterIsSubseq(f.rawImages, q => f.Contains(q));
    forall q | q in f.List() ensures multiset(f.List())[q] == multiset(f.rawImages)[q] {
      Seqs.FilterCount(f.rawImages, q => f.Contains(q), q);
    }
  }

  lemma PrefixCancel(p: string, s: string, t: string)
    ensures p + s == p + t <==> s == t
    ensures p + s <= p + t <==> s <= t
  {
    if p + s == p + t { assert (p + s)[|p|..] == s && (p + t)[|p|..] == t; }
    if p + s <= p + t {
      assert forall k :: 0 <= k < |s| ==> s[k] == (p + s)[|p| + k] == (p + t)[|p| + k] == t[k];
    }
  }

  /** For dash-free names, `a-` starts `b-x` exactly when a == b. */
  lemma DashFreeOwner(a: string, b: string, x: string)
    requires '-' !in a && '-' !in b
    ensures a + "-" <= b + "-" + x <==> a == b
  {
    var s := b + "-" + x;
    var t := a + "-";
    if t <= s {
      assert t[|a|] == '-';
      assert s[|a|] == '-';
      assert |a| >= |b|;
      assert s[|b|] == '-';
      assert t[|b|] == '-';
      assert |a| == |b|;
      assert forall k :: 0 <= k < |a| ==> a[k] == t[k] == s[k] == b[k];
    }
    if a == b {
      assert s == t + x;
    }
  }

  /** Commit images of another dash-free user are never the filter user's own. */
  lemma ForeignCommitImage(f: ImageFilter, a: string, b: string, x: string)
    requires f.username == Some(a) && '-' !in a && '-' !in b && a != b
    ensures !f.IsUserImage(f.commitName + ":" + b)
    ensures !f.IsUserImage(f.commitName + ":" + b + "-" + x)
  {
    var p := f.commitName + ":";
    assert f.commitName + ":" + a == p + a;
    assert f.commitName + ":" + a + "-" == p + (a + "-");
    assert f.commitName + ":" + b == p + b;
    assert f.commitName + ":" + b + "-" + x == p + (b + "-" + x);
    PrefixCancel(p, b, a);
    PrefixCancel(p, a + "-", b);
    PrefixCancel(p, b + "-" + x, a);
    PrefixCancel(p, a + "-", b + "-" + x);
    assert (a + "-")[|a|] == '-';
    assert !(a + "-" <= b);
    assert (b + "-" + x)[|b|] == '-';
    assert b + "-" + x != a;
    DashFreeOwner(a, b, x);
  }

  /** `commit:B-x` is listed for user B, and, when no configured image matches
      it, for no other dash-free user. */
  lemma CommitImageVisibility(f: ImageFilter, a: string, b: string, x: string)
    requires f.username == Some(a) && a != "" && '-' !in a && '-' !in b
    requires f.commitName + ":" + b + "-" + x in f.rawImages
    requires forall k :: 0 <= k < |f.config.images| ==>
      !MatchesConfig(f.config.images[k], f.commitName + ":" + b + "-" + x)
    ensures (f.commitName + ":" + b + "-" + x in f.List()) <==> a == b
  {
    ListIsVisibleSubsequence(f);
    var q := f.commitName + ":" + b + "-" + x;
    if a == b {
      assert f.commitName + ":" + a + "-" <= q;
    } else {
      ForeignCommitImage(f, a, b, x);
    }
  }
}
