/**
 The node's flows-draining-mode switch (`FlowsDrainingModeOperationsImpl`): a boolean stored as a string under a
 node-specific key of the node-properties key-value store. Every write publishes the pair (previous value, new
 value) to subscribers; the published stream is modelled as an appended list.
 */
module NodeProperties {

  /** The suffix appended to the physical node id to form the property key. */
  const FlowsExecutionModeSuffix: string := "_flowsExecutionMode"

  /** The draining-mode switch: its property key, the key-value store it writes to, and the pairs published so far. */
  datatype FlowsDrainingMode = FlowsDrainingMode(key: string, properties: map<string, string>, values: seq<(bool, bool)>)

  /** The property key of a node: its physical node id followed by `_flowsExecutionMode`. */
  function NodeSpecificKey(physicalNodeId: string): (key: string)
    ensures |key| == |physicalNodeId| + |FlowsExecutionModeSuffix|
    ensures key[..|physicalNodeId|] == physicalNodeId
    ensures key[|physicalNodeId|..] == FlowsExecutionModeSuffix
  {
    physicalNodeId + FlowsExecutionModeSuffix
  }

  /** Different nodes never share a draining-mode key. */
  lemma NodeSpecificKeyInjective(a: string, b: string)
    requires NodeSpecificKey(a) == NodeSpecificKey(b)
    ensures a == b
  {
  }

  /** The switch as constructed: the key is derived once from the node id; nothing has been published yet. */
  function Create(physicalNodeId: string, properties: map<string, string>): (m: FlowsDrainingMode)
    ensures m.key == NodeSpecificKey(physicalNodeId)
    ensures m.properties == properties && m.values == []
  {
    FlowsDrainingMode(NodeSpecificKey(physicalNodeId), properties, [])
  }

  /** ASCII lower-casing, the only case folding that can make a character equal to a letter of "true". */
  function LowerAscii(c: char): char
  {
    if 'A' <= c <= 'Z' then (c as int - 'A' as int + 'a' as int) as char else c
  }

  /** The word "true" spelled with each letter in lower or upper case, as in "true", "TRUE" or "tRuE". */
  predicate SpellsTrue(s: string) {
    |s| == 4 && forall i :: 0 <= i < 4 ==> s[i] == "true"[i] || s[i] == "TRUE"[i]
  }

  /** Kotlin's `String.toBoolean()`: true exactly for "true" in any mix of upper and lower case, false otherwise. */
  function ToBoolean(s: string): (b: bool)
    ensures b <==> SpellsTrue(s)
  {
    |s| == 4 && forall i :: 0 <= i < 4 ==> LowerAscii(s[i]) == "true"[i]
  }

  /** Kotlin's `Boolean.toString()`. */
  function BoolToString(b: bool): string
  {
    if b then "true" else "false"
  }

  /** The stored encoding round-trips: parsing what `toString` wrote gives the boolean back. */
  lemma ToBooleanRoundTrip(b: bool)
    ensures ToBoolean(BoolToString(b)) == b
  {
  }

  /** Two strings that differ at most in the case of their ASCII letters. */
  predicate SameUpToCase(s: string, t: string) {
    |s| == |t| && forall i :: 0 <= i < |s| ==> LowerAscii(s[i]) == LowerAscii(t[i])
  }

  /** Parsing ignores case: changing the case of any letters never changes the parsed boolean. */
  lemma ToBooleanIgnoresCase(s: string, t: string)
    requires SameUpToCase(s, t)
    ensures ToBoolean(s) == ToBoolean(t)
  {
  }

  /** `isEnabled()`: the stored value parsed as a boolean, or false when nothing is stored under the key. */
  function IsEnabled(m: FlowsDrainingMode): (enabled: bool)
    ensures m.key !in m.properties ==> !enabled
    ensures m.key in m.properties ==> (enabled <==> SpellsTrue(m.properties[m.key]))
  {
    if m.key in m.properties then ToBoolean(m.properties[m.key]) else false
  }

  /**
   `setEnabled(enabled)`: store `enabled.toString()` under the node key and publish exactly one pair
   (previous value parsed, or false when absent; `enabled`), even when the value does not change.
   */
  function SetEnabled(m: FlowsDrainingMode, enabled: bool): (m': FlowsDrainingMode)
    ensures m'.key == m.key
    ensures IsEnabled(m') == enabled
    ensures m'.values == m.values + [(IsEnabled(m), enabled)]
    ensures m'.properties.Keys == m.properties.Keys + {m.key}
    ensures forall k :: k in m.properties && k != m.key ==> m'.properties[k] == m.properties[k]
  {
    var oldValue := if m.key in m.properties then ToBoolean(m.properties[m.key]) else false;
    ToBooleanRoundTrip(enabled);
    m.(properties := m.properties[m.key := BoolToString(enabled)], values := m.values + [(oldValue, enabled)])
  }

  /** A switch that was never written reads as disabled. */
  lemma DefaultIsDisabled(physicalNodeId: string, properties: map<string, string>)
    requires NodeSpecificKey(physicalNodeId) !in properties
    ensures !IsEnabled(Create(physicalNodeId, properties))
  {
  }

  /** Two writes in a row publish two pairs, and the second one's previous value is the first write's value. */
  lemma SetEnabledTwicePublishesChain(m: FlowsDrainingMode, first: bool, second: bool)
    ensures SetEnabled(SetEnabled(m, first), second).values == m.values + [(IsEnabled(m), first), (first, second)]
    ensures IsEnabled(SetEnabled(SetEnabled(m, first), second)) == second
  {
  }

  /** Writing one node's switch leaves another node's switch in the same store as it was. */
  lemma SetEnabledLeavesOtherNodes(physicalNodeId: string, otherNodeId: string, properties: map<string, string>, enabled: bool)
    requires physicalNodeId != otherNodeId
    ensures IsEnabled(Create(otherNodeId, SetEnabled(Create(physicalNodeId, properties), enabled).properties))
            == IsEnabled(Create(otherNodeId, properties))
  {
  }
}
