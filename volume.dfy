/**
 * The table of average-volume filters offered to the user: each option name
 * `over_N` selects the screener filter code `sh_avgvol_oN`, where N counts
 * thousands of shares.
 */
module Volume {
  import opened Wrappers
  import opened Seqs
  import opened Dicts

  /** The offered thresholds, in thousands of shares, in the order they are offered. */
  const VolumeOptions: seq<string> := ["50", "100", "200", "300", "400", "500", "750", "1000", "2000"]

  const OptionPrefix: string := "over_"
  const FilterPrefix: string := "sh_avgvol_o"

  /** The writes `volume_selection['over_' + v] = 'sh_avgvol_o' + v`, one per option, in order. */
  function VolumeWrites(options: seq<string>): seq<(string, string)> {
    seq(|options|, i requires 0 <= i < |options| => (OptionPrefix + options[i], FilterPrefix + options[i]))
  }

  /** The dict built from `options`. */
  function VolumeSelection(options: seq<string>): Dict<string, string> {
    PutAll(Empty(), VolumeWrites(options))
  }

  /** `setup_volume_options()`. */
  function SetupVolumeOptions(): Dict<string, string> {
    VolumeSelection(VolumeOptions)
  }

  lemma {:induction false} PrefixInjective(p: string, a: string, b: string)
    requires p + a == p + b
    ensures a == b
  {
    assert a == (p + a)[|p|..];
    assert b == (p + b)[|p|..];
  }

  /** Distinct options give distinct option names. */
  lemma {:induction false} WritesDistinct(options: seq<string>)
    requires Distinct(options)
    ensures Distinct(Labels(VolumeWrites(options)))
  {
    var ks := Labels(VolumeWrites(options));
    forall i, j | 0 <= i < j < |ks| ensures ks[i] != ks[j] {
      if ks[i] == ks[j] {
        PrefixInjective(OptionPrefix, options[i], options[j]);
      }
    }
  }

  /**
   * From distinct options the dict has one key per option, in option order,
   * and each key `over_N` holds the filter code `sh_avgvol_oN`.
   */
  lemma {:induction false} SelectionTable(options: seq<string>)
    requires Distinct(options)
    ensures VolumeSelection(options).keys == seq(|options|, i requires 0 <= i < |options| => OptionPrefix + options[i])
    ensures forall i :: 0 <= i < |options| ==> VolumeSelection(options).Get(OptionPrefix + options[i]) == Some(FilterPrefix + options[i])
  {
    WritesDistinct(options);
    var w := VolumeWrites(options);
    PutAllDistinct(w);
    assert Labels(w) == seq(|options|, i requires 0 <= i < |options| => OptionPrefix + options[i]);
    forall i | 0 <= i < |options| ensures w[i] == (OptionPrefix + options[i], FilterPrefix + options[i]) { }
  }

  /** Every key `over_N` of the dict maps to `sh_avgvol_oN`: the filter code is recovered from the key alone. */
  lemma {:induction false} SelectionValueFromKey(options: seq<string>, k: string)
    requires Distinct(options) && k in VolumeSelection(options).entries
    ensures |OptionPrefix| <= |k| && k[..|OptionPrefix|] == OptionPrefix
    ensures VolumeSelection(options).Get(k) == Some(FilterPrefix + k[|OptionPrefix|..])
  {
    SelectionTable(options);
    PutAllValid(Empty(), VolumeWrites(options));
    var i :| 0 <= i < |options| && VolumeSelection(options).keys[i] == k;
    assert k == OptionPrefix + options[i];
    assert k[|OptionPrefix|..] == options[i];
  }

  lemma OptionsDistinct()
    ensures Distinct(VolumeOptions)
  {
  }

  /**
   * `setup_volume_options()` holds exactly the nine thresholds, `over_50` to
   * `over_2000`, in that order: the dict is well formed, so no other key has
   * an entry.
   */
  lemma SetupVolumeOptionsTable()
    ensures SetupVolumeOptions().Valid()
    ensures |SetupVolumeOptions().keys| == 9
    ensures forall i :: 0 <= i < 9 ==>
      SetupVolumeOptions().keys[i] == "over_" + VolumeOptions[i] &&
      SetupVolumeOptions().Get("over_" + VolumeOptions[i]) == Some("sh_avgvol_o" + VolumeOptions[i])
    ensures forall k :: SetupVolumeOptions().Get(k).Some? ==> exists i :: 0 <= i < 9 && k == "over_" + VolumeOptions[i]
  {
    OptionsDistinct();
    SelectionTable(VolumeOptions);
    PutAllValid(Empty(), VolumeWrites(VolumeOptions));
  }
}
