/** What an answer says for every parsed offer: which lines are refused, in which order codecs appear. */
module SdpAnswer {
  import opened Text
  import opened SdpModel
  import opened SdpBuilder

  // ---------- The preference sort ----------

  ghost predicate ByRank(rs: seq<Remote>, codecs: seq<Codec>) {
    forall i, j | 0 <= i < j < |rs| :: LocalRank(codecs, rs[i].key) <= LocalRank(codecs, rs[j].key)
  }

  function OfRank(rs: seq<Remote>, codecs: seq<Codec>, n: int): seq<Remote> {
    if rs == [] then []
    else (if LocalRank(codecs, rs[0].key) == n then [rs[0]] else []) + OfRank(rs[1..], codecs, n)
  }

  lemma {:induction false} InsertKeepsRank(r: Remote, rs: seq<Remote>, codecs: seq<Codec>)
    requires ByRank(rs, codecs)
    ensures ByRank(Insert(r, rs, codecs), codecs)
    ensures forall x :: x in Insert(r, rs, codecs) <==> x == r || x in rs
    decreases |rs|
  {
    hide LocalRank;
    if rs != [] && LocalRank(codecs, r.key) > LocalRank(codecs, rs[0].key) {
      var t := Insert(r, rs[1..], codecs);
      InsertKeepsRank(r, rs[1..], codecs);
      assert rs == [rs[0]] + rs[1..];
      forall j | 0 <= j < |t| ensures LocalRank(codecs, rs[0].key) <= LocalRank(codecs, t[j].key) {
        assert t[j] in t;
        if t[j] != r {
          var k :| 0 <= k < |rs[1..]| && rs[1..][k] == t[j];
          assert rs[k + 1] == t[j];
        }
      }
    }
  }

  lemma {:induction false} InsertIsStable(r: Remote, rs: seq<Remote>, codecs: seq<Codec>, n: int)
    requires ByRank(rs, codecs)
    ensures OfRank(Insert(r, rs, codecs), codecs, n) ==
            (if LocalRank(codecs, r.key) == n then [r] else []) + OfRank(rs, codecs, n)
    decreases |rs|
  {
    hide LocalRank;
    if rs == [] || LocalRank(codecs, r.key) <= LocalRank(codecs, rs[0].key) {
      assert ([r] + rs)[1..] == rs;
    } else {
      var t := Insert(r, rs[1..], codecs);
      InsertIsStable(r, rs[1..], codecs, n);
      assert ([rs[0]] + t)[1..] == t;
    }
  }

  /** The sort orders by local preference and keeps the offer's order among equals. */
  lemma {:induction false} PreferenceSort(rs: seq<Remote>, codecs: seq<Codec>)
    ensures ByRank(SortByPreference(rs, codecs), codecs)
    ensures forall n :: OfRank(SortByPreference(rs, codecs), codecs, n) == OfRank(rs, codecs, n)
    ensures forall x :: x in SortByPreference(rs, codecs) <==> x in rs
    decreases |rs|
  {
    hide LocalRank;
    if rs != [] {
      var t := SortByPreference(rs[1..], codecs);
      PreferenceSort(rs[1..], codecs);
      InsertKeepsRank(rs[0], t, codecs);
      forall n ensures OfRank(Insert(rs[0], t, codecs), codecs, n) == OfRank(rs, codecs, n) {
        InsertIsStable(rs[0], t, codecs, n);
      }
      assert rs == [rs[0]] + rs[1..];
    }
  }

  // ---------- What is selected ----------

  ghost predicate InPreferenceOrder(cs: seq<Codec>, codecs: seq<Codec>) {
    forall i, j | 0 <= i < j < |cs| :: LocalRank(codecs, cs[i].Key()) <= LocalRank(codecs, cs[j].Key())
  }

  lemma {:induction false} SelectedFrom(rs: seq<Remote>, codecs: seq<Codec>)
    ensures forall c | c in Selected(rs, codecs) ::
              exists i | 0 <= i < |rs| :: rs[i].key == c.Key() && Supports(codecs, c.Key()) && c.Key() != TE_KEY
    ensures forall i | 0 <= i < |rs| && Supports(codecs, rs[i].key) && rs[i].key != TE_KEY ::
              codecs[LastIndex(codecs, rs[i].key)] in Selected(rs, codecs)
    decreases |rs|
  {
    hide LastIndex;
    if rs != [] {
      SelectedFrom(rs[1..], codecs);
      forall c | c in Selected(rs, codecs)
        ensures exists i | 0 <= i < |rs| :: rs[i].key == c.Key() && Supports(codecs, c.Key()) && c.Key() != TE_KEY
      {
        if c in Selected(rs[1..], codecs) {
          var i :| 0 <= i < |rs[1..]| && rs[1..][i].key == c.Key() && Supports(codecs, c.Key()) && c.Key() != TE_KEY;
          assert rs[i + 1].key == c.Key();
        } else {
          assert rs[0].key == c.Key();
        }
      }
      forall i | 0 <= i < |rs| && Supports(codecs, rs[i].key) && rs[i].key != TE_KEY
        ensures codecs[LastIndex(codecs, rs[i].key)] in Selected(rs, codecs)
      {
        if i > 0 { assert rs[1..][i - 1] == rs[i]; }
      }
    }
  }

  lemma {:induction false} SelectedInOrder(rs: seq<Remote>, codecs: seq<Codec>)
    requires ByRank(rs, codecs)
    ensures InPreferenceOrder(Selected(rs, codecs), codecs)
    decreases |rs|
  {
    hide LastIndex, LocalRank;
    if rs != [] {
      SelectedInOrder(rs[1..], codecs);
      var t := Selected(rs[1..], codecs);
      if Supports(codecs, rs[0].key) && rs[0].key != TE_KEY {
        SelectedFrom(rs[1..], codecs);
        forall j | 0 <= j < |t| ensures LocalRank(codecs, rs[0].key) <= LocalRank(codecs, t[j].Key()) {
          assert t[j] in t;
          var i :| 0 <= i < |rs[1..]| && rs[1..][i].key == t[j].Key();
          assert rs[i + 1].key == t[j].Key();
        }
      }
    }
  }

  // ---------- What is advertised ----------

  function CodecsOf(maps: seq<(int, Codec)>): (r: seq<Codec>)
    ensures |r| == |maps| && forall i | 0 <= i < |maps| :: r[i] == maps[i].1
  {
    seq(|maps|, i requires 0 <= i < |maps| => maps[i].1)
  }

  /** One rtpmap per format, no format twice. */
  ghost predicate Consistent(ch: Chosen) {
    && |ch.rtpmaps| == |ch.fmts| && Distinct(ch.fmts)
    && forall i | 0 <= i < |ch.fmts| :: ch.rtpmaps[i].0 == ch.fmts[i]
  }

  lemma AddConsistent(ch: Chosen, pt: int, c: Codec)
    requires Consistent(ch)
    ensures Consistent(Add(ch, pt, c)) && Add(ch, pt, c).fmts != []
    ensures ch.rtpmaps <= Add(ch, pt, c).rtpmaps
  {
  }

  lemma {:induction false} AddAllKeeps(ch: Chosen, cs: seq<Codec>, pref: int, next: nat)
    requires Consistent(ch) && AddAll(ch, cs, pref, next).Some?
    ensures var r := AddAll(ch, cs, pref, next).value;
            Consistent(r) && ch.rtpmaps <= r.rtpmaps && (r.fmts == [] <==> ch.fmts == [] && cs == [])
    decreases |cs|
  {
    hide AssignPt, Add, Consistent;
    if cs != [] {
      var (pt, n) := AssignPt(cs[0], pref, next).value;
      AddConsistent(ch, pt, cs[0]);
      AddAllKeeps(Add(ch, pt, cs[0]), cs[1..], pref, n);
    } else {
      assert ch.rtpmaps <= ch.rtpmaps;
    }
  }

  /** Beyond the first `k` entries the advertised codecs are taken from `cs` without reordering. */
  lemma {:induction false} AddAllInOrder(ch: Chosen, cs: seq<Codec>, pref: int, next: nat, k: nat, codecs: seq<Codec>)
    requires k <= |ch.rtpmaps| && AddAll(ch, cs, pref, next).Some?
    requires InPreferenceOrder(CodecsOf(ch.rtpmaps[k..]) + cs, codecs)
    ensures var r := AddAll(ch, cs, pref, next).value;
            k <= |r.rtpmaps| && InPreferenceOrder(CodecsOf(r.rtpmaps[k..]), codecs)
    decreases |cs|
  {
    hide AssignPt, LocalRank;
    var done := CodecsOf(ch.rtpmaps[k..]);
    if cs == [] {
      assert done + cs == done;
    } else {
      var (pt, n) := AssignPt(cs[0], pref, next).value;
      var ch' := Add(ch, pt, cs[0]);
      var done' := CodecsOf(ch'.rtpmaps[k..]);
      if pt in ch.fmts {
        DropKeepsOrder(done, cs, codecs);
      } else {
        assert done' == done + [cs[0]];
        assert done' + cs[1..] == done + cs;
      }
      AddAllInOrder(ch', cs[1..], pref, n, k, codecs);
    }
  }

  lemma DropKeepsOrder(done: seq<Codec>, cs: seq<Codec>, codecs: seq<Codec>)
    requires cs != [] && InPreferenceOrder(done + cs, codecs)
    ensures InPreferenceOrder(done + cs[1..], codecs)
  {
    hide LocalRank;
    var a, b := done + cs, done + cs[1..];
    forall i, j | 0 <= i < j < |b| ensures LocalRank(codecs, b[i].Key()) <= LocalRank(codecs, b[j].Key()) {
      var i', j' := if i < |done| then i else i + 1, if j < |done| then j else j + 1;
      assert b[i] == a[i'] && b[j] == a[j'];
    }
  }

  // ---------- Refusal ----------

  /** Some offered payload type stands for a codec we support. */
  ghost predicate SharesCodec(md: MediaDesc, codecs: seq<Codec>) {
    exists i | 0 <= i < |md.fmts| ::
      RemoteOf(md, md.fmts[i]).Some? && Supports(codecs, RemoteOf(md, md.fmts[i]).value.key)
  }

  ghost predicate OffersKey(md: MediaDesc, key: CodecKey) {
    exists i | 0 <= i < |md.fmts| :: RemoteOf(md, md.fmts[i]).Some? && RemoteOf(md, md.fmts[i]).value.key == key
  }

  lemma {:induction false} RemotesExact(md: MediaDesc, fmts: seq<int>)
    ensures forall r :: r in Remotes(md, fmts) <==> exists i | 0 <= i < |fmts| :: RemoteOf(md, fmts[i]) == Some(r)
    decreases |fmts|
  {
    hide RemoteOf;
    if fmts != [] {
      RemotesExact(md, fmts[1..]);
      forall r ensures r in Remotes(md, fmts) <==> exists i | 0 <= i < |fmts| :: RemoteOf(md, fmts[i]) == Some(r) {
        if r in Remotes(md, fmts[1..]) {
          var i :| 0 <= i < |fmts[1..]| && RemoteOf(md, fmts[1..][i]) == Some(r);
          assert RemoteOf(md, fmts[i + 1]) == Some(r);
        }
        if i :| 0 <= i < |fmts| && RemoteOf(md, fmts[i]) == Some(r) {
          if i > 0 { assert RemoteOf(md, fmts[1..][i - 1]) == Some(r); }
        }
      }
    }
  }

  lemma {:induction false} FirstOfExact(rs: seq<Remote>, key: CodecKey)
    ensures FirstOf(rs, key).Some? <==> exists i | 0 <= i < |rs| :: rs[i].key == key
    ensures FirstOf(rs, key).Some? ==> FirstOf(rs, key).value in rs && FirstOf(rs, key).value.key == key
    decreases |rs|
  {
    if rs != [] {
      FirstOfExact(rs[1..], key);
      if i :| 0 <= i < |rs| && rs[i].key == key {
        if i > 0 { assert rs[1..][i - 1].key == key; }
      }
      if FirstOf(rs[1..], key).Some? {
        var i :| 0 <= i < |rs[1..]| && rs[1..][i].key == key;
        assert rs[i + 1].key == key;
      }
    }
  }

  lemma {:induction false} AddAllFrom(ch: Chosen, cs: seq<Codec>, pref: int, next: nat)
    requires AddAll(ch, cs, pref, next).Some?
    ensures var r := AddAll(ch, cs, pref, next).value;
            |ch.rtpmaps| <= |r.rtpmaps| && forall i | |ch.rtpmaps| <= i < |r.rtpmaps| :: r.rtpmaps[i].1 in cs
    decreases |cs|
  {
    hide AssignPt;
    if cs != [] {
      var (pt, n) := AssignPt(cs[0], pref, next).value;
      var ch' := Add(ch, pt, cs[0]);
      var r := AddAll(ch, cs, pref, next).value;
      AddAllKeepsPrefix(ch', cs[1..], pref, n);
      AddAllFrom(ch', cs[1..], pref, n);
      assert cs == [cs[0]] + cs[1..];
      forall i | |ch.rtpmaps| <= i < |r.rtpmaps| ensures r.rtpmaps[i].1 in cs {
        if i < |ch'.rtpmaps| { assert r.rtpmaps[i] == ch'.rtpmaps[i] == (pt, cs[0]); }
      }
    }
  }

  lemma {:induction false} AddAllKeepsPrefix(ch: Chosen, cs: seq<Codec>, pref: int, next: nat)
    requires AddAll(ch, cs, pref, next).Some?
    ensures ch.rtpmaps <= AddAll(ch, cs, pref, next).value.rtpmaps
    decreases |cs|
  {
    hide AssignPt;
    if cs != [] {
      var (pt, n) := AssignPt(cs[0], pref, next).value;
      AddAllKeepsPrefix(Add(ch, pt, cs[0]), cs[1..], pref, n);
    }
  }

  /** Nothing is advertised exactly when no offered codec is supported. */
  lemma ChosenNothing(md: MediaDesc, m: MediaCap)
    requires Choose(md, m).Some?
    ensures Choose(md, m).value.fmts == [] <==> !SharesCodec(md, m.codecs)
  {
    hide LastIndex, RemoteOf, LocalRank, SortByPreference, Remotes, Selected, AddAll, FirstOf, Events;
    var rs := SortByPreference(Remotes(md, md.fmts), m.codecs);
    PreferenceSort(Remotes(md, md.fmts), m.codecs);
    RemotesExact(md, md.fmts);
    FirstOfExact(rs, TE_KEY);
    SelectedFrom(rs, m.codecs);
    AddAllKeeps(ChooseTelephoneEvent(rs, m), Selected(rs, m.codecs), m.tePref, 96);
    if SharesCodec(md, m.codecs) {
      var i :| 0 <= i < |md.fmts| && RemoteOf(md, md.fmts[i]).Some?
        && Supports(m.codecs, RemoteOf(md, md.fmts[i]).value.key);
      var r := RemoteOf(md, md.fmts[i]).value;
      assert r in Remotes(md, md.fmts) && r in rs;
      var k :| 0 <= k < |rs| && rs[k] == r;
    }
    if Choose(md, m).value.fmts != [] {
      SomethingShared(md, m, rs);
    }
  }

  lemma SomethingShared(md: MediaDesc, m: MediaCap, rs: seq<Remote>)
    requires forall r | r in rs :: exists i | 0 <= i < |md.fmts| :: RemoteOf(md, md.fmts[i]) == Some(r)
    requires ChooseTelephoneEvent(rs, m).fmts != [] || Selected(rs, m.codecs) != []
    ensures SharesCodec(md, m.codecs)
  {
    hide LastIndex, RemoteOf, FirstOf, Selected, Events;
    SelectedFrom(rs, m.codecs);
    FirstOfExact(rs, TE_KEY);
    var r: Remote;
    if Selected(rs, m.codecs) != [] {
      var c := Selected(rs, m.codecs)[0];
      assert c in Selected(rs, m.codecs);
      var k :| 0 <= k < |rs| && rs[k].key == c.Key() && Supports(m.codecs, c.Key());
      r := rs[k];
    } else {
      r := FirstOf(rs, TE_KEY).value;
    }
    assert r in rs && Supports(m.codecs, r.key);
    var i :| 0 <= i < |md.fmts| && RemoteOf(md, md.fmts[i]) == Some(r);
  }

  /** Both sides have telephone-event/8000. */
  ghost predicate SharesTelephoneEvent(md: MediaDesc, codecs: seq<Codec>) {
    Supports(codecs, TE_KEY) && OffersKey(md, TE_KEY)
  }

  /** Telephone-event comes first, the other codecs are common ones in local preference order. */
  ghost predicate InAnswerOrder(md: MediaDesc, m: MediaCap, maps: seq<(int, Codec)>) {
    var te := SharesTelephoneEvent(md, m.codecs);
    var k := if te then 1 else 0;
    && k <= |maps|
    && (te ==> maps[0].0 == m.tePref && maps[0].1.Key() == TE_KEY)
    && (forall i | k <= i < |maps| ::
          maps[i].1.Key() != TE_KEY && Supports(m.codecs, maps[i].1.Key()) && OffersKey(md, maps[i].1.Key()))
    && InPreferenceOrder(CodecsOf(maps[k..]), m.codecs)
  }

  lemma ChosenInOrder(md: MediaDesc, m: MediaCap)
    requires Choose(md, m).Some?
    ensures Consistent(Choose(md, m).value)
    ensures InAnswerOrder(md, m, Choose(md, m).value.rtpmaps)
  {
    hide LastIndex, RemoteOf, LocalRank, SortByPreference, Remotes, Selected, AddAll, FirstOf, Events,
         InPreferenceOrder;
    var rs := SortByPreference(Remotes(md, md.fmts), m.codecs);
    var ch, cs := ChooseTelephoneEvent(rs, m), Selected(rs, m.codecs);
    var r := Choose(md, m).value;
    PreferenceSort(Remotes(md, md.fmts), m.codecs);
    RemotesExact(md, md.fmts);
    FirstOfExact(rs, TE_KEY);
    OfferedAmong(md, rs, TE_KEY);
    AddAllKeeps(ch, cs, m.tePref, 96);
    var k := |ch.rtpmaps|;
    assert ch.rtpmaps[k..] == [];
    SelectedInOrder(rs, m.codecs);
    assert CodecsOf(ch.rtpmaps[k..]) + cs == cs;
    AddAllInOrder(ch, cs, m.tePref, 96, k, m.codecs);
    AddAllFrom(ch, cs, m.tePref, 96);
    SelectedFrom(rs, m.codecs);
    forall i | k <= i < |r.rtpmaps|
      ensures r.rtpmaps[i].1.Key() != TE_KEY && Supports(m.codecs, r.rtpmaps[i].1.Key())
          && OffersKey(md, r.rtpmaps[i].1.Key())
    {
      var c := r.rtpmaps[i].1;
      assert c in cs;
      var j :| 0 <= j < |rs| && rs[j].key == c.Key() && Supports(m.codecs, c.Key()) && c.Key() != TE_KEY;
      OfferedAmong(md, rs, c.Key());
    }
  }

  lemma OfferedAmong(md: MediaDesc, rs: seq<Remote>, key: CodecKey)
    requires forall r :: r in rs <==> exists i | 0 <= i < |md.fmts| :: RemoteOf(md, md.fmts[i]) == Some(r)
    ensures OffersKey(md, key) <==> exists i | 0 <= i < |rs| :: rs[i].key == key
  {
    hide RemoteOf;
    if OffersKey(md, key) {
      var i :| 0 <= i < |md.fmts| && RemoteOf(md, md.fmts[i]).Some? && RemoteOf(md, md.fmts[i]).value.key == key;
      var r := RemoteOf(md, md.fmts[i]).value;
      assert r in rs;
    }
    if i :| 0 <= i < |rs| && rs[i].key == key {
      assert rs[i] in rs;
    }
  }

  /**
   One answered line, for every offered line and every local capability: refused with port 0
   exactly when there is no local capability or no common codec, otherwise the local port and
   profile, formats without duplicates, telephone-event first and the rest by local preference.
   */
  lemma AnswerLine(md: MediaDesc, local: SessionCap)
    requires AnswerSection(md, local).Some?
    ensures var s, cap := AnswerSection(md, local).value, LocalMedia(local, md.media);
            && s.media == md.media
            && (s == Refused(md) && s.direction.None? <==> cap.None? || !SharesCodec(md, cap.value.codecs))
            && (s.direction.Some? ==>
                && cap.Some?
                && s.port == cap.value.port && s.proto == cap.value.profile
                && (s.rtcpMux <==> cap.value.rtcpMux && md.rtcpMux)
                && s.direction == Some(AnswerDirection(md.direction, cap.value.direction))
                && Consistent(Chosen(s.fmts, s.rtpmaps, s.fmtps))
                && InAnswerOrder(md, cap.value, s.rtpmaps))
  {
    var cap := LocalMedia(local, md.media);
    if cap.Some? {
      ChosenNothing(md, cap.value);
      ChosenInOrder(md, cap.value);
    }
    hide Choose, SharesCodec, InAnswerOrder, Consistent, AnswerDirection;
  }

  /** One line per offered line, in the same order. */
  lemma {:induction false} AnswerLineByLine(media: seq<MediaDesc>, local: SessionCap)
    requires AnswerSections(media, local).Some?
    ensures var r := AnswerSections(media, local).value;
            |r| == |media| && forall i | 0 <= i < |media| :: AnswerSection(media[i], local) == Some(r[i])
    decreases |media|
  {
    hide AnswerSection;
    if media != [] { AnswerLineByLine(media[1..], local); }
  }
}
