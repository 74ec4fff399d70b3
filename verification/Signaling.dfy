/** The signaling server's registry (main.go): two maps updated in place. Every method is proved to be
    the corresponding step of SignalingModel. */
module Signaling {
  import opened Clock
  import opened Maps
  import opened Wrappers
  import opened SignalingModel

  class SignalingServer {
    var clients: map<string, Client>
    var recentTokens: map<string, map<string, Time>>
    var closed: set<Conn>

    ghost function Model(): Registry
      reads this
    {
      Registry(clients, recentTokens, closed)
    }

    constructor ()
      ensures Model() == Init()
    {
      clients, recentTokens, closed := map[], map[], {};
    }

    method CloseConn(id: string)
      requires id in clients
      modifies this`closed
      ensures closed == old(closed) + CurrentConn(Model(), id)
    {
      if clients[id].conn.Some? {
        closed := closed + {clients[id].conn.value};
      }
    }

    method AddClient(id: string, token: string, conn: Option<Conn>, now: Time)
      modifies this
      ensures Model() == AddStep(old(Model()), id, token, conn, now)
    {
      if id in clients {
        CloseConn(id);
      }
      clients := clients[id := Client(token, conn)];
      if token != "" {
        RememberToken(id, token, now);
      }
    }

    /** Files the token and purges the tokens of `id` that are older than ten minutes. */
    method RememberToken(id: string, token: string, now: Time)
      modifies this`recentTokens
      ensures recentTokens == old(recentTokens)[id := Remember(TokensOf(old(Model()), id), token, now)]
    {
      var tokens := if id in recentTokens then recentTokens[id] else map[];
      tokens := tokens[token := now];
      recentTokens := recentTokens[id := tokens];
      ghost var stale := Stale(tokens, now);
      var left := tokens.Keys;
      assert stale - left == {} && tokens - {} == tokens;
      while left != {}
        invariant recentTokens == old(recentTokens)[id := tokens - (stale - left)]
        invariant left <= recentTokens[id].Keys
      {
        var t :| t in left;
        PurgeOne(tokens, stale, left, t);
        left := left - {t};
        if recentTokens[id][t] + PURGE_AFTER < now {
          PutTwice(old(recentTokens), id, recentTokens[id], recentTokens[id] - {t});
          recentTokens := recentTokens[id := recentTokens[id] - {t}];
        }
      }
      assert stale - left == stale;
    }

    lemma PurgeOne(tokens: map<string, Time>, stale: set<string>, left: set<string>, t: string)
      requires t in left
      ensures tokens - (stale - (left - {t}))
              == if t in stale then tokens - (stale - left) - {t} else tokens - (stale - left)
    {
      if t in stale {
        assert stale - (left - {t}) == stale - left + {t};
      } else {
        assert stale - (left - {t}) == stale - left;
      }
    }

    method RemoveClient(id: string, token: string, conn: Option<Conn>)
      modifies this`clients
      ensures Model() == RemoveStep(old(Model()), id, token, conn)
    {
      if id in clients {
        var client := clients[id];
        if conn.None? || client.conn == conn {
          if token == "" || client.token == token {
            clients := clients - {id};
          }
        }
      }
    }

    method ValidatePeerToken(id: string, token: string, now: Time) returns (ok: bool)
      ensures ok == SignalingModel.ValidatePeerToken(Model(), id, token, now)
    {
      if id == "" || token == "" {
        return false;
      }
      if id in clients {
        if clients[id].token == token {
          return true;
        }
      }
      if id in recentTokens {
        if token in recentTokens[id] {
          if now - recentTokens[id][token] < GRACE {
            return true;
          }
        }
      }
      return false;
    }

    method KickClient(id: string)
      modifies this
      ensures Model() == KickStep(old(Model()), id)
    {
      if id in clients {
        CloseConn(id);
        clients := clients - {id};
      }
    }
  }
}
