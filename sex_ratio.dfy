/**
 The pie chart's numbers (`updatePieChart`): the selected country's deaths
 per `Sex`, turned into a male and a female percentage.
 */
module SexRatio {
  import opened Records
  import opened Tally
  import opened Causes

  /** The two slices, in percent. */
  datatype Share = Share(male: real, female: real)

  /** The pass keys a row by its sex when the row belongs to `country`. */
  function SexKey(country: string): DeathRecord -> Option<string>
  {
    (r: DeathRecord) => if r.country == country then Some(r.sex) else None
  }

  /** `causeData` after the pass: deaths at all ages per sex. */
  function SexTotals(rs: seq<DeathRecord>, country: string): (t: seq<Entry<string>>)
    ensures DistinctKeys(t)
  {
    GroupSum(rs, SexKey(country), DeathCount)
  }

  /** `_all = causeData["Male"] + causeData["Female"]` and each count `* 100 / _all`.
      There is no guard: a missing key reads `undefined` and makes both
      percentages NaN, and so does `0 / 0`; `None` stands for that NaN pair. */
  function PieShares(t: seq<Entry<string>>): (r: Option<Share>)
    ensures r.Some? <==> HasKey(t, "Male") && HasKey(t, "Female") && Lookup(t, "Male") + Lookup(t, "Female") > 0
    ensures r.Some? ==> SharesOf(r.value, Lookup(t, "Male"), Lookup(t, "Female"))
  {
    var m, f := Lookup(t, "Male"), Lookup(t, "Female");
    if HasKey(t, "Male") && HasKey(t, "Female") && m + f > 0 then
      Some(Percentages(m, f))
    else None
  }

  /** `s` splits 100 percent between the sexes in proportion to `m` male and
      `f` female deaths. */
  predicate SharesOf(s: Share, m: nat, f: nat)
  {
    && 0.0 <= s.male <= 100.0 && 0.0 <= s.female <= 100.0
    && s.male + s.female == 100.0
    && s.male * ((m + f) as real) == 100.0 * (m as real)
  }

  /** `male * 100 / _all` and `female * 100 / _all` with `_all = male + female`. */
  function Percentages(m: nat, f: nat): (s: Share)
    requires m + f > 0
    ensures SharesOf(s, m, f)
  {
    var x, y := m as real, f as real;
    assert (m + f) as real == x + y;
    PercentShares(x, y);
    Share(x * 100.0 / (x + y), y * 100.0 / (x + y))
  }

  /** Two counts as percentages of their sum: each between 0 and 100, adding up to 100. */
  lemma PercentShares(m: real, f: real)
    requires m >= 0.0 && f >= 0.0 && m + f > 0.0
    ensures m * 100.0 / (m + f) + f * 100.0 / (m + f) == 100.0
    ensures 0.0 <= m * 100.0 / (m + f) <= 100.0
    ensures 0.0 <= f * 100.0 / (m + f) <= 100.0
    ensures (m * 100.0 / (m + f)) * (m + f) == 100.0 * m
  {
    var all := m + f;
    var x, y := m * 100.0 / all, f * 100.0 / all;
    assert x * all == m * 100.0;
    assert y * all == f * 100.0;
    assert (x + y) * all == x * all + y * all;
    assert m * 100.0 + f * 100.0 == 100.0 * all;
    assert (x + y - 100.0) * all == 0.0;
    assert x <= 100.0 by {
      assert (100.0 - x) * all == f * 100.0;
    }
    assert y <= 100.0 by {
      assert (100.0 - y) * all == m * 100.0;
    }
  }

  predicate HasSex(rs: seq<DeathRecord>, country: string, sex: string)
  {
    exists i :: 0 <= i < |rs| && rs[i].country == country && rs[i].sex == sex
  }

  /** Deaths at all ages of the country's rows of one sex. */
  function SexSum(rs: seq<DeathRecord>, country: string, sex: string): nat
  {
    SumWhere(rs, SexKey(country), DeathCount, sex)
  }

  /** The shares are defined exactly when the country has rows of both sexes and
      some deaths; male is then 100 * male deaths / all deaths. */
  lemma SharesOfRows(rs: seq<DeathRecord>, country: string)
    ensures var r := PieShares(SexTotals(rs, country));
            var m, f := SexSum(rs, country, "Male"), SexSum(rs, country, "Female");
            && (r.Some? <==> HasSex(rs, country, "Male") && HasSex(rs, country, "Female") && m + f > 0)
            && (r.Some? ==> SharesOf(r.value, m, f))
  {
    SexTotalsSpec(rs, country, "Male");
    SexTotalsSpec(rs, country, "Female");
  }

  lemma SexTotalsSpec(rs: seq<DeathRecord>, country: string, sex: string)
    ensures HasKey(SexTotals(rs, country), sex) <==> HasSex(rs, country, sex)
    ensures Lookup(SexTotals(rs, country), sex) == SexSum(rs, country, sex)
  {
    GroupSumSpec(rs, SexKey(country), DeathCount, sex);
    if HasSex(rs, country, sex) {
      var i :| 0 <= i < |rs| && rs[i].country == country && rs[i].sex == sex;
      assert SexKey(country)(rs[i]) == Some(sex);
    }
  }

  /** Malaysia, 2010, heart disease: 100 male and 50 female deaths give shares of
      200/3 and 100/3 percent and one cause with 150 deaths. */
  lemma MalaysiaHeartDisease(bands: AgeBands)
    ensures var rs := [DeathRecord("Malaysia", 2010, "Heart disease", "Male", 100, bands),
                       DeathRecord("Malaysia", 2010, "Heart disease", "Female", 50, bands)];
            && PieShares(SexTotals(rs, "Malaysia")) == Some(Share(200.0 / 3.0, 100.0 / 3.0))
            && CauseTotals(rs, "Malaysia") == [Entry("Heart disease", 150)]
  {
    var male := DeathRecord("Malaysia", 2010, "Heart disease", "Male", 100, bands);
    var female := DeathRecord("Malaysia", 2010, "Heart disease", "Female", 50, bands);
    var rs := [male, female];
    assert rs[..1] == [male] && [male][..0] == [];
    var one := [Entry("Male", 100)];
    assert GroupSum([male], SexKey("Malaysia"), DeathCount) == one;
    assert "Male" != "Female";
    assert Add(one, "Female", 50) == one + [Entry("Female", 50)] by {
      assert one[1..] == [];
    }
    var sexes := SexTotals(rs, "Malaysia");
    assert sexes == [Entry("Male", 100), Entry("Female", 50)];
    assert Keys(sexes) == ["Male", "Female"];
    assert Lookup(sexes, "Male") == 100;
    assert Lookup(sexes, "Female") == 50 by {
      assert sexes[1..] == [Entry("Female", 50)];
    }
    var share := Percentages(100, 50);
    assert share.male == 200.0 / 3.0 && share.female == 100.0 / 3.0;
    assert GroupSum([male], CauseKey("Malaysia"), DeathCount) == [Entry("Heart disease", 100)];
    assert Add([Entry("Heart disease", 100)], "Heart disease", 50) == [Entry("Heart disease", 150)] by {
      assert [Entry("Heart disease", 100)][1..] == [];
    }
  }
}
