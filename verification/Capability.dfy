/**
 The capability checker (security/capability/checker.go).
 */
module Capability {

  /** Capability name to the actions it permits. */
  type Allowlist = map<string, set<string>>

  /** Check: some capability of the peer permits the action. */
  predicate Permits(al: Allowlist, caps: seq<string>, action: string) {
    exists c :: c in caps && c in al && action in al[c]
  }

  function Elements(xs: seq<string>): set<string> { set x | x in xs }

  /** NewChecker: each list of actions as a set. */
  function FromConfig(config: map<string, seq<string>>): Allowlist { map c | c in config :: Elements(config[c]) }

  function GrantStep(al: Allowlist, capability: string, action: string): Allowlist {
    al[capability := (if capability in al then al[capability] else {}) + {action}]
  }

  function RevokeStep(al: Allowlist, capability: string, action: string): Allowlist {
    if capability in al then al[capability := al[capability] - {action}] else al
  }

  class Checker {
    var allowlist: Allowlist

    constructor (config: map<string, seq<string>>)
      ensures allowlist == FromConfig(config)
    {
      allowlist := FromConfig(config);
    }

    /** Check: the peer's capabilities are tried in order. */
    method Check(peerCapabilities: seq<string>, action: string) returns (ok: bool)
      ensures ok <==> Permits(allowlist, peerCapabilities, action)
    {
      var i := 0;
      while i < |peerCapabilities|
        invariant 0 <= i <= |peerCapabilities|
        invariant forall j :: 0 <= j < i ==>
                    !(peerCapabilities[j] in allowlist && action in allowlist[peerCapabilities[j]])
      {
        var cap := peerCapabilities[i];
        if cap in allowlist {
          if action in allowlist[cap] {
            return true;
          }
        }
        i := i + 1;
      }
      return false;
    }

    method Grant(capability: string, action: string)
      modifies this
      ensures allowlist == GrantStep(old(allowlist), capability, action)
    {
      if capability !in allowlist {
        allowlist := allowlist[capability := {}];
      }
      allowlist := allowlist[capability := allowlist[capability] + {action}];
    }

    method Revoke(capability: string, action: string)
      modifies this
      ensures allowlist == RevokeStep(old(allowlist), capability, action)
    {
      if capability in allowlist {
        allowlist := allowlist[capability := allowlist[capability] - {action}];
      }
    }
  }

  /** A grant adds exactly one permission, to the holders of one capability. */
  lemma GrantAddsOne(al: Allowlist, capability: string, action: string, caps: seq<string>, x: string)
    ensures Permits(GrantStep(al, capability, action), caps, x)
            <==> Permits(al, caps, x) || (capability in caps && x == action)
  {
    var al' := GrantStep(al, capability, action);
    if capability in caps && x == action {
      assert capability in al' && x in al'[capability];
    }
    if Permits(al, caps, x) {
      var c :| c in caps && c in al && x in al[c];
      assert c in al' && x in al'[c];
    }
  }

  /** A revocation removes exactly that permission: what remains is permitted some other way. */
  lemma RevokeRemovesOne(al: Allowlist, capability: string, action: string, caps: seq<string>, x: string)
    ensures Permits(RevokeStep(al, capability, action), caps, x)
            <==> exists c :: c in caps && c in al && x in al[c] && !(c == capability && x == action)
  {
    var al' := RevokeStep(al, capability, action);
    if c :| c in caps && c in al && x in al[c] && !(c == capability && x == action) {
      assert c in al' && x in al'[c];
    }
  }
}
