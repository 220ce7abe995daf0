/** Words that several parts of the system share. */
module Vocabulary {
  import opened ByteStrings

  type Digest = b: Bytes | |b| == 32 witness Zeros(32)
  type Id = b: Bytes | |b| == 16 witness Zeros(16)

  datatype Decision = Approve | Deny

  /** What the planner froze, as far as the broker looks at it. */
  datatype FrozenPlan = FrozenPlan(packageName: Bytes, manifestDigest: Digest, planDigest: Digest, actionCount: u32)

  predicate PackageByte(b: byte) {
    'a' as int <= b <= 'z' as int || '0' as int <= b <= '9' as int || b in {'+' as int, '.' as int, '-' as int}
  }

  /** The package names of signed requests and of plan actions. */
  predicate SchemaName(s: Bytes) {
    && 1 <= |s| <= 255
    && 'a' as int <= s[0] <= 'z' as int
    && forall i :: 1 <= i < |s| ==> PackageByte(s[i])
  }
}
