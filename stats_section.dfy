/**
 * The home-page statistics strip (src/components/home/StatsSection.jsx):
 * three figures read from the settings record, each replaced by a built-in
 * default when the stored value is missing, null or 0.
 */
module StatsSection {
  import opened Wrappers
  import opened Settings

  datatype Stat = Stat(value: int, suffix: string, caption: string)

  const DefaultHours := 5000
  const DefaultProcesses := 120
  const DefaultOrganizations := 30

  const HoursCaption := "שעות עבודה שנחסכו"
  const ProcessesCaption := "תהליכים שהוטמעו"
  const OrganizationsCaption := "ארגונים שעבדנו איתם"

  /** `value || fallback`: a missing value and 0 both give the fallback. */
  function OrDefault(v: Option<int>, fallback: int): (r: int)
    ensures v.Some? && v.value != 0 ==> r == v.value
    ensures v.None? || v.value == 0 ==> r == fallback
  {
    if v.Some? && v.value != 0 then v.value else fallback
  }

  /** `stats`: hours saved, processes, organizations, in that order, each with the suffix `+`. */
  function Stats(settings: SiteSettings): (r: seq<Stat>)
    ensures |r| == 3
    ensures forall i :: 0 <= i < 3 ==> r[i].suffix == "+"
    ensures r[0].caption == HoursCaption && r[0].value == OrDefault(settings.statsHoursSaved, DefaultHours)
    ensures r[1].caption == ProcessesCaption && r[1].value == OrDefault(settings.statsProcesses, DefaultProcesses)
    ensures r[2].caption == OrganizationsCaption && r[2].value == OrDefault(settings.statsOrganizations, DefaultOrganizations)
  {
    [ Stat(OrDefault(settings.statsHoursSaved, DefaultHours), "+", HoursCaption),
      Stat(OrDefault(settings.statsProcesses, DefaultProcesses), "+", ProcessesCaption),
      Stat(OrDefault(settings.statsOrganizations, DefaultOrganizations), "+", OrganizationsCaption) ]
  }

  /** With no settings row every figure is its default. */
  lemma StatsWithoutSettings()
    ensures Stats(NoSettings) == [
      Stat(5000, "+", HoursCaption), Stat(120, "+", ProcessesCaption), Stat(30, "+", OrganizationsCaption)]
  {
  }

  /** A stored 0 shows the default, exactly as a missing value does. */
  lemma ZeroShowsDefault(settings: SiteSettings)
    ensures Stats(settings.(statsHoursSaved := Some(0))) == Stats(settings.(statsHoursSaved := None))
    ensures Stats(settings.(statsProcesses := Some(0))) == Stats(settings.(statsProcesses := None))
    ensures Stats(settings.(statsOrganizations := Some(0))) == Stats(settings.(statsOrganizations := None))
  {
  }

  /** Every figure shown is non-zero, whatever is stored. */
  lemma StatsNeverZero(settings: SiteSettings)
    ensures forall i :: 0 <= i < 3 ==> Stats(settings)[i].value != 0
  {
  }
}
