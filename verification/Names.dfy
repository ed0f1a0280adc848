/** Command names: which bytes name which command, in whatever letter case. */
module Names {
  import opened Basics
  import opened Commands

  /** The name is this word of capitals, with each letter in either case. */
  predicate Spells(name: Bytes, word: string) {
    |name| == |word| && forall i :: 0 <= i < |name| ==> name[i] == word[i] as int || name[i] == word[i] as int + 32
  }

  predicate Capitals(word: string) {
    forall i :: 0 <= i < |word| ==> 'A' <= word[i] <= 'Z'
  }

  /** The word in small letters. */
  ghost predicate Lowers(word: string, lower: string) {
    |lower| == |word| && forall i :: 0 <= i < |word| ==> lower[i] as int == word[i] as int + 32
  }

  /** Setting bit 5 identifies the two cases of a letter and nothing else. */
  lemma {:induction false} BitFive(b: Byte, c: int)
    requires 65 <= c <= 90
    ensures SetBit5(b) == c + 32 <==> b == c || b == c + 32
  {
  }

  lemma {:induction false} NamedIsSpelled(name: Bytes, word: string, lower: string)
    requires Capitals(word) && Lowers(word, lower)
    ensures Named(name, lower) <==> Spells(name, word)
  {
    hide SetBit5;
    if |name| == |word| {
      forall i | 0 <= i < |name| ensures SetBit5(name[i]) == lower[i] as int <==> name[i] == word[i] as int || name[i] == word[i] as int + 32 {
        BitFive(name[i], word[i] as int);
      }
    }
  }

  /** Two words that differ somewhere are not both in a name. */
  lemma {:induction false} NotBoth(name: Bytes, a: string, b: string, i: nat)
    requires Named(name, a) && i < |a| == |b| && a[i] != b[i]
    ensures !Named(name, b)
  {
  }

  lemma {:induction false} SpellsOne(name: Bytes, a: string, b: string, i: nat)
    requires Capitals(a) && Capitals(b) && i < |a| == |b| && a[i] != b[i]
    ensures !(Spells(name, a) && Spells(name, b))
  {
  }

  // ---------------------------------------------------------------- what each word stands for

  lemma {:induction false} SetWord(name: Bytes)
    requires Spells(name, "SET")
    ensures OpOf(name) == SetOp
  {
    NamedIsSpelled(name, "SET", "set");
  }

  lemma {:induction false} TtlWord(name: Bytes)
    requires Spells(name, "TTL")
    ensures OpOf(name) == TtlOp
  {
    NamedIsSpelled(name, "TTL", "ttl");
    hide Named;
    NotBoth(name, "ttl", "set", 0);
  }

  lemma {:induction false} GetWord(name: Bytes)
    requires Spells(name, "GET")
    ensures OpOf(name) == GetOp
  {
    NamedIsSpelled(name, "GET", "get");
    hide Named;
    NotBoth(name, "get", "set", 0);
    NotBoth(name, "get", "ttl", 0);
  }

  lemma {:induction false} DelWord(name: Bytes)
    requires Spells(name, "DEL")
    ensures OpOf(name) == DelOp
  {
    NamedIsSpelled(name, "DEL", "del");
    hide Named;
    NotBoth(name, "del", "set", 0);
    NotBoth(name, "del", "ttl", 0);
    NotBoth(name, "del", "get", 0);
  }

  lemma {:induction false} PingWord(name: Bytes)
    requires Spells(name, "PING")
    ensures OpOf(name) == AdminOp
  {
    NamedIsSpelled(name, "PING", "ping");
  }

  lemma {:induction false} KeysWord(name: Bytes)
    requires Spells(name, "KEYS")
    ensures OpOf(name) == KeysOp
  {
    NamedIsSpelled(name, "KEYS", "keys");
    hide Named;
    NotBoth(name, "keys", "ping", 0);
  }

  lemma {:induction false} SaveWord(name: Bytes)
    requires Spells(name, "SAVE")
    ensures OpOf(name) == AdminOp
  {
    NamedIsSpelled(name, "SAVE", "save");
    hide Named;
    NotBoth(name, "save", "ping", 0);
    NotBoth(name, "save", "keys", 0);
  }

  lemma {:induction false} IncrWord(name: Bytes)
    requires Spells(name, "INCR")
    ensures OpOf(name) == IncrOp
  {
    NamedIsSpelled(name, "INCR", "incr");
    hide Named;
    NotBoth(name, "incr", "ping", 0);
    NotBoth(name, "incr", "keys", 0);
    NotBoth(name, "incr", "save", 0);
  }

  lemma {:induction false} DecrWord(name: Bytes)
    requires Spells(name, "DECR")
    ensures OpOf(name) == DecrOp
  {
    NamedIsSpelled(name, "DECR", "decr");
    hide Named;
    NotBoth(name, "decr", "ping", 0);
    NotBoth(name, "decr", "keys", 0);
    NotBoth(name, "decr", "save", 0);
    NotBoth(name, "decr", "incr", 0);
  }

  lemma {:induction false} PttlWord(name: Bytes)
    requires Spells(name, "PTTL")
    ensures OpOf(name) == PttlOp
  {
    NamedIsSpelled(name, "PTTL", "pttl");
    hide Named;
    NotBoth(name, "pttl", "ping", 1);
    NotBoth(name, "pttl", "keys", 0);
    NotBoth(name, "pttl", "save", 0);
    NotBoth(name, "pttl", "incr", 0);
    NotBoth(name, "pttl", "decr", 0);
  }

  lemma {:induction false} MgetWord(name: Bytes)
    requires Spells(name, "MGET")
    ensures OpOf(name) == MGetOp
  {
    NamedIsSpelled(name, "MGET", "mget");
    hide Named;
    NotBoth(name, "mget", "ping", 0);
    NotBoth(name, "mget", "keys", 0);
    NotBoth(name, "mget", "save", 0);
    NotBoth(name, "mget", "incr", 0);
    NotBoth(name, "mget", "decr", 0);
    NotBoth(name, "mget", "pttl", 0);
  }

  lemma {:induction false} MsetWord(name: Bytes)
    requires Spells(name, "MSET")
    ensures OpOf(name) == MSetOp
  {
    NamedIsSpelled(name, "MSET", "mset");
    hide Named;
    NotBoth(name, "mset", "ping", 0);
    NotBoth(name, "mset", "keys", 0);
    NotBoth(name, "mset", "save", 0);
    NotBoth(name, "mset", "incr", 0);
    NotBoth(name, "mset", "decr", 0);
    NotBoth(name, "mset", "pttl", 0);
    NotBoth(name, "mset", "mget", 1);
  }

  lemma {:induction false} AuthWord(name: Bytes)
    requires Spells(name, "AUTH")
    ensures OpOf(name) == AdminOp
  {
    NamedIsSpelled(name, "AUTH", "auth");
    hide Named;
    NotBoth(name, "auth", "ping", 0);
    NotBoth(name, "auth", "keys", 0);
    NotBoth(name, "auth", "save", 0);
    NotBoth(name, "auth", "incr", 0);
    NotBoth(name, "auth", "decr", 0);
    NotBoth(name, "auth", "pttl", 0);
    NotBoth(name, "auth", "mget", 0);
    NotBoth(name, "auth", "mset", 0);
  }

  lemma {:induction false} InfoWord(name: Bytes)
    requires Spells(name, "INFO")
    ensures OpOf(name) == InfoOp
  {
    NamedIsSpelled(name, "INFO", "info");
    hide Named;
    NotBoth(name, "info", "ping", 0);
    NotBoth(name, "info", "keys", 0);
    NotBoth(name, "info", "save", 0);
    NotBoth(name, "info", "incr", 2);
    NotBoth(name, "info", "decr", 0);
    NotBoth(name, "info", "pttl", 0);
    NotBoth(name, "info", "mget", 0);
    NotBoth(name, "info", "mset", 0);
    NotBoth(name, "info", "auth", 0);
  }

  lemma {:induction false} ScanWord(name: Bytes)
    requires Spells(name, "SCAN")
    ensures OpOf(name) == ScanOp
  {
    NamedIsSpelled(name, "SCAN", "scan");
    hide Named;
    NotBoth(name, "scan", "ping", 0);
    NotBoth(name, "scan", "keys", 0);
    NotBoth(name, "scan", "save", 1);
    NotBoth(name, "scan", "incr", 0);
    NotBoth(name, "scan", "decr", 0);
    NotBoth(name, "scan", "pttl", 0);
    NotBoth(name, "scan", "mget", 0);
    NotBoth(name, "scan", "mset", 0);
    NotBoth(name, "scan", "auth", 0);
    NotBoth(name, "scan", "info", 0);
  }

  lemma {:induction false} HsetWord(name: Bytes)
    requires Spells(name, "HSET")
    ensures OpOf(name) == HSetOp
  {
    NamedIsSpelled(name, "HSET", "hset");
    hide Named;
    NotBoth(name, "hset", "ping", 0);
    NotBoth(name, "hset", "keys", 0);
    NotBoth(name, "hset", "save", 0);
    NotBoth(name, "hset", "incr", 0);
    NotBoth(name, "hset", "decr", 0);
    NotBoth(name, "hset", "pttl", 0);
    NotBoth(name, "hset", "mget", 0);
    NotBoth(name, "hset", "mset", 0);
    NotBoth(name, "hset", "auth", 0);
    NotBoth(name, "hset", "info", 0);
    NotBoth(name, "hset", "scan", 0);
  }

  lemma {:induction false} HgetWord(name: Bytes)
    requires Spells(name, "HGET")
    ensures OpOf(name) == HGetOp
  {
    NamedIsSpelled(name, "HGET", "hget");
    hide Named;
    NotBoth(name, "hget", "ping", 0);
    NotBoth(name, "hget", "keys", 0);
    NotBoth(name, "hget", "save", 0);
    NotBoth(name, "hget", "incr", 0);
    NotBoth(name, "hget", "decr", 0);
    NotBoth(name, "hget", "pttl", 0);
    NotBoth(name, "hget", "mget", 0);
    NotBoth(name, "hget", "mset", 0);
    NotBoth(name, "hget", "auth", 0);
    NotBoth(name, "hget", "info", 0);
    NotBoth(name, "hget", "scan", 0);
    NotBoth(name, "hget", "hset", 1);
  }

  lemma {:induction false} HdelWord(name: Bytes)
    requires Spells(name, "HDEL")
    ensures OpOf(name) == HDelOp
  {
    NamedIsSpelled(name, "HDEL", "hdel");
    hide Named;
    NotBoth(name, "hdel", "ping", 0);
    NotBoth(name, "hdel", "keys", 0);
    NotBoth(name, "hdel", "save", 0);
    NotBoth(name, "hdel", "incr", 0);
    NotBoth(name, "hdel", "decr", 0);
    NotBoth(name, "hdel", "pttl", 0);
    NotBoth(name, "hdel", "mget", 0);
    NotBoth(name, "hdel", "mset", 0);
    NotBoth(name, "hdel", "auth", 0);
    NotBoth(name, "hdel", "info", 0);
    NotBoth(name, "hdel", "scan", 0);
    NotBoth(name, "hdel", "hset", 1);
    NotBoth(name, "hdel", "hget", 1);
  }

  lemma {:induction false} TypeWord(name: Bytes)
    requires Spells(name, "TYPE")
    ensures OpOf(name) == TypeOp
  {
    NamedIsSpelled(name, "TYPE", "type");
    hide Named;
    NotBoth(name, "type", "ping", 0);
    NotBoth(name, "type", "keys", 0);
    NotBoth(name, "type", "save", 0);
    NotBoth(name, "type", "incr", 0);
    NotBoth(name, "type", "decr", 0);
    NotBoth(name, "type", "pttl", 0);
    NotBoth(name, "type", "mget", 0);
    NotBoth(name, "type", "mset", 0);
    NotBoth(name, "type", "auth", 0);
    NotBoth(name, "type", "info", 0);
    NotBoth(name, "type", "scan", 0);
    NotBoth(name, "type", "hset", 0);
    NotBoth(name, "type", "hget", 0);
    NotBoth(name, "type", "hdel", 0);
  }

  lemma {:induction false} ExistsWord(name: Bytes)
    requires Spells(name, "EXISTS")
    ensures OpOf(name) == ExistsOp
  {
    NamedIsSpelled(name, "EXISTS", "exists");
  }

  lemma {:induction false} BgsaveWord(name: Bytes)
    requires Spells(name, "BGSAVE")
    ensures OpOf(name) == AdminOp
  {
    NamedIsSpelled(name, "BGSAVE", "bgsave");
    hide Named;
    NotBoth(name, "bgsave", "exists", 0);
  }

  lemma {:induction false} DbsizeWord(name: Bytes)
    requires Spells(name, "DBSIZE")
    ensures OpOf(name) == DbSizeOp
  {
    NamedIsSpelled(name, "DBSIZE", "dbsize");
    hide Named;
    NotBoth(name, "dbsize", "exists", 0);
    NotBoth(name, "dbsize", "bgsave", 0);
  }

  lemma {:induction false} ConfigWord(name: Bytes)
    requires Spells(name, "CONFIG")
    ensures OpOf(name) == AdminOp
  {
    NamedIsSpelled(name, "CONFIG", "config");
    hide Named;
    NotBoth(name, "config", "exists", 0);
    NotBoth(name, "config", "bgsave", 0);
    NotBoth(name, "config", "dbsize", 0);
  }

  lemma {:induction false} IncrbyWord(name: Bytes)
    requires Spells(name, "INCRBY")
    ensures OpOf(name) == IncrByOp
  {
    NamedIsSpelled(name, "INCRBY", "incrby");
    hide Named;
    NotBoth(name, "incrby", "exists", 0);
    NotBoth(name, "incrby", "bgsave", 0);
    NotBoth(name, "incrby", "dbsize", 0);
    NotBoth(name, "incrby", "config", 0);
  }

  lemma {:induction false} DecrbyWord(name: Bytes)
    requires Spells(name, "DECRBY")
    ensures OpOf(name) == DecrByOp
  {
    NamedIsSpelled(name, "DECRBY", "decrby");
    hide Named;
    NotBoth(name, "decrby", "exists", 0);
    NotBoth(name, "decrby", "bgsave", 0);
    NotBoth(name, "decrby", "dbsize", 1);
    NotBoth(name, "decrby", "config", 0);
    NotBoth(name, "decrby", "incrby", 0);
  }

  lemma {:induction false} ExpireWord(name: Bytes)
    requires Spells(name, "EXPIRE")
    ensures OpOf(name) == ExpireOp
  {
    NamedIsSpelled(name, "EXPIRE", "expire");
    hide Named;
    NotBoth(name, "expire", "exists", 2);
    NotBoth(name, "expire", "bgsave", 0);
    NotBoth(name, "expire", "dbsize", 0);
    NotBoth(name, "expire", "config", 0);
    NotBoth(name, "expire", "incrby", 0);
    NotBoth(name, "expire", "decrby", 0);
  }

  lemma {:induction false} FlushdbWord(name: Bytes)
    requires Spells(name, "FLUSHDB")
    ensures OpOf(name) == FlushOp
  {
    NamedIsSpelled(name, "FLUSHDB", "flushdb");
  }

  lemma {:induction false} CommandWord(name: Bytes)
    requires Spells(name, "COMMAND")
    ensures OpOf(name) == AdminOp
  {
    NamedIsSpelled(name, "COMMAND", "command");
    hide Named;
    NotBoth(name, "command", "flushdb", 0);
  }

  lemma {:induction false} PersistWord(name: Bytes)
    requires Spells(name, "PERSIST")
    ensures OpOf(name) == PersistOp
  {
    NamedIsSpelled(name, "PERSIST", "persist");
    hide Named;
    NotBoth(name, "persist", "flushdb", 0);
    NotBoth(name, "persist", "command", 0);
  }

  lemma {:induction false} HgetallWord(name: Bytes)
    requires Spells(name, "HGETALL")
    ensures OpOf(name) == HGetAllOp
  {
    NamedIsSpelled(name, "HGETALL", "hgetall");
    hide Named;
    NotBoth(name, "hgetall", "flushdb", 0);
    NotBoth(name, "hgetall", "command", 0);
    NotBoth(name, "hgetall", "persist", 0);
  }

  lemma {:induction false} LastsaveWord(name: Bytes)
    requires Spells(name, "LASTSAVE")
    ensures OpOf(name) == AdminOp
  {
    NamedIsSpelled(name, "LASTSAVE", "lastsave");
  }

  lemma {:induction false} FlushallWord(name: Bytes)
    requires Spells(name, "FLUSHALL")
    ensures OpOf(name) == FlushOp
  {
    NamedIsSpelled(name, "FLUSHALL", "flushall");
    hide Named;
    NotBoth(name, "flushall", "lastsave", 0);
  }

  lemma {:induction false} BgrewriteaofWord(name: Bytes)
    requires Spells(name, "BGREWRITEAOF")
    ensures OpOf(name) == AdminOp
  {
    NamedIsSpelled(name, "BGREWRITEAOF", "bgrewriteaof");
  }

  // ---------------------------------------------------------------- all other names

  predicate ShortWord(name: Bytes) {
    || Spells(name, "SET") || Spells(name, "TTL") || Spells(name, "GET") || Spells(name, "DEL")
  }

  lemma {:induction false} NoShortWord(name: Bytes)
    requires !ShortWord(name)
    ensures !Named(name, "set")
    ensures !Named(name, "ttl")
    ensures !Named(name, "get")
    ensures !Named(name, "del")
  {
    hide Named, Spells;
    NamedIsSpelled(name, "SET", "set");
    NamedIsSpelled(name, "TTL", "ttl");
    NamedIsSpelled(name, "GET", "get");
    NamedIsSpelled(name, "DEL", "del");
  }

  predicate FourLetterWord(name: Bytes) {
    || Spells(name, "PING") || Spells(name, "KEYS") || Spells(name, "SAVE") || Spells(name, "INCR")
    || Spells(name, "DECR")
  }

  lemma {:induction false} NoFourLetterWord(name: Bytes)
    requires !FourLetterWord(name)
    ensures !Named(name, "ping")
    ensures !Named(name, "keys")
    ensures !Named(name, "save")
    ensures !Named(name, "incr")
    ensures !Named(name, "decr")
  {
    hide Named, Spells;
    NamedIsSpelled(name, "PING", "ping");
    NamedIsSpelled(name, "KEYS", "keys");
    NamedIsSpelled(name, "SAVE", "save");
    NamedIsSpelled(name, "INCR", "incr");
    NamedIsSpelled(name, "DECR", "decr");
  }

  predicate FourLetterWordToo(name: Bytes) {
    || Spells(name, "PTTL") || Spells(name, "MGET") || Spells(name, "MSET") || Spells(name, "AUTH")
    || Spells(name, "INFO")
  }

  lemma {:induction false} NoFourLetterWordToo(name: Bytes)
    requires !FourLetterWordToo(name)
    ensures !Named(name, "pttl")
    ensures !Named(name, "mget")
    ensures !Named(name, "mset")
    ensures !Named(name, "auth")
    ensures !Named(name, "info")
  {
    hide Named, Spells;
    NamedIsSpelled(name, "PTTL", "pttl");
    NamedIsSpelled(name, "MGET", "mget");
    NamedIsSpelled(name, "MSET", "mset");
    NamedIsSpelled(name, "AUTH", "auth");
    NamedIsSpelled(name, "INFO", "info");
  }

  predicate HashWord(name: Bytes) {
    || Spells(name, "SCAN") || Spells(name, "HSET") || Spells(name, "HGET") || Spells(name, "HDEL")
    || Spells(name, "TYPE")
  }

  lemma {:induction false} NoHashWord(name: Bytes)
    requires !HashWord(name)
    ensures !Named(name, "scan")
    ensures !Named(name, "hset")
    ensures !Named(name, "hget")
    ensures !Named(name, "hdel")
    ensures !Named(name, "type")
  {
    hide Named, Spells;
    NamedIsSpelled(name, "SCAN", "scan");
    NamedIsSpelled(name, "HSET", "hset");
    NamedIsSpelled(name, "HGET", "hget");
    NamedIsSpelled(name, "HDEL", "hdel");
    NamedIsSpelled(name, "TYPE", "type");
  }

  predicate SixLetterWord(name: Bytes) {
    || Spells(name, "EXISTS") || Spells(name, "BGSAVE") || Spells(name, "DBSIZE")
    || Spells(name, "CONFIG") || Spells(name, "INCRBY") || Spells(name, "DECRBY")
    || Spells(name, "EXPIRE")
  }

  lemma {:induction false} NoSixLetterWord(name: Bytes)
    requires !SixLetterWord(name)
    ensures !Named(name, "exists")
    ensures !Named(name, "bgsave")
    ensures !Named(name, "dbsize")
    ensures !Named(name, "config")
    ensures !Named(name, "incrby")
    ensures !Named(name, "decrby")
    ensures !Named(name, "expire")
  {
    hide Named, Spells;
    NamedIsSpelled(name, "EXISTS", "exists");
    NamedIsSpelled(name, "BGSAVE", "bgsave");
    NamedIsSpelled(name, "DBSIZE", "dbsize");
    NamedIsSpelled(name, "CONFIG", "config");
    NamedIsSpelled(name, "INCRBY", "incrby");
    NamedIsSpelled(name, "DECRBY", "decrby");
    NamedIsSpelled(name, "EXPIRE", "expire");
  }

  predicate LongWord(name: Bytes) {
    || Spells(name, "FLUSHDB") || Spells(name, "COMMAND") || Spells(name, "PERSIST")
    || Spells(name, "HGETALL") || Spells(name, "LASTSAVE") || Spells(name, "FLUSHALL")
    || Spells(name, "BGREWRITEAOF")
  }

  lemma {:induction false} NoLongWord(name: Bytes)
    requires !LongWord(name)
    ensures !Named(name, "flushdb")
    ensures !Named(name, "command")
    ensures !Named(name, "persist")
    ensures !Named(name, "hgetall")
    ensures !Named(name, "lastsave")
    ensures !Named(name, "flushall")
    ensures !Named(name, "bgrewriteaof")
  {
    hide Named, Spells;
    NamedIsSpelled(name, "FLUSHDB", "flushdb");
    NamedIsSpelled(name, "COMMAND", "command");
    NamedIsSpelled(name, "PERSIST", "persist");
    NamedIsSpelled(name, "HGETALL", "hgetall");
    NamedIsSpelled(name, "LASTSAVE", "lastsave");
    NamedIsSpelled(name, "FLUSHALL", "flushall");
    NamedIsSpelled(name, "BGREWRITEAOF", "bgrewriteaof");
  }

  /** The name is a word the dispatcher knows. */
  predicate Known(name: Bytes) {
    || ShortWord(name) || FourLetterWord(name) || FourLetterWordToo(name) || HashWord(name)
    || SixLetterWord(name) || LongWord(name)
  }

  lemma {:induction false} UnknownName(name: Bytes)
    requires !Known(name)
    ensures OpOf(name) == UnknownOp
  {
    hide Named, ShortWord, FourLetterWord, FourLetterWordToo, HashWord, SixLetterWord, LongWord;
    NoShortWord(name);
    NoFourLetterWord(name);
    NoFourLetterWordToo(name);
    NoHashWord(name);
    NoSixLetterWord(name);
    NoLongWord(name);
  }

  // ---------------------------------------------------------------- and back

  /** The commands that are logged have one name each. */
  lemma {:induction false} LoggedWords(name: Bytes)
    ensures OpOf(name) == SetOp ==> Spells(name, "SET")
    ensures OpOf(name) == DelOp ==> Spells(name, "DEL")
    ensures OpOf(name) == IncrOp ==> Spells(name, "INCR")
    ensures OpOf(name) == DecrOp ==> Spells(name, "DECR")
    ensures OpOf(name) == MSetOp ==> Spells(name, "MSET")
  {
    hide Named, Spells;
    NamedIsSpelled(name, "SET", "set");
    NamedIsSpelled(name, "DEL", "del");
    NamedIsSpelled(name, "INCR", "incr");
    NamedIsSpelled(name, "DECR", "decr");
    NamedIsSpelled(name, "MSET", "mset");
  }

  lemma {:induction false} LoggedHashWords(name: Bytes)
    ensures OpOf(name) == HSetOp ==> Spells(name, "HSET")
    ensures OpOf(name) == HDelOp ==> Spells(name, "HDEL")
  {
    hide Named, Spells;
    NamedIsSpelled(name, "HSET", "hset");
    NamedIsSpelled(name, "HDEL", "hdel");
  }

  lemma {:induction false} LongLoggedWords(name: Bytes)
    ensures OpOf(name) == IncrByOp ==> Spells(name, "INCRBY")
    ensures OpOf(name) == DecrByOp ==> Spells(name, "DECRBY")
    ensures OpOf(name) == ExpireOp ==> Spells(name, "EXPIRE")
    ensures OpOf(name) == PersistOp ==> Spells(name, "PERSIST")
  {
    hide Named, Spells;
    NamedIsSpelled(name, "INCRBY", "incrby");
    NamedIsSpelled(name, "DECRBY", "decrby");
    NamedIsSpelled(name, "EXPIRE", "expire");
    NamedIsSpelled(name, "PERSIST", "persist");
  }

  /** The log takes exactly these, whatever came of them; DEL only with a key. */
  lemma {:induction false} LoggedExactly(cmd: Command)
    ensures Logged(cmd)
            <==> && cmd != []
                 && (|| Spells(cmd[0], "SET") || Spells(cmd[0], "MSET") || Spells(cmd[0], "INCR") || Spells(cmd[0], "DECR")
                     || Spells(cmd[0], "INCRBY") || Spells(cmd[0], "DECRBY") || Spells(cmd[0], "EXPIRE")
                     || Spells(cmd[0], "PERSIST") || Spells(cmd[0], "HSET") || Spells(cmd[0], "HDEL")
                     || (Spells(cmd[0], "DEL") && |cmd| >= 2))
  {
    hide OpOf, Spells;
    if cmd != [] {
      var name := cmd[0];
      LoggedWords(name);
      LoggedHashWords(name);
      LongLoggedWords(name);
      if Spells(name, "SET") { SetWord(name); }
      if Spells(name, "MSET") { MsetWord(name); }
      if Spells(name, "INCR") { IncrWord(name); }
      if Spells(name, "DECR") { DecrWord(name); }
      if Spells(name, "INCRBY") { IncrbyWord(name); }
      if Spells(name, "DECRBY") { DecrbyWord(name); }
      if Spells(name, "EXPIRE") { ExpireWord(name); }
      if Spells(name, "PERSIST") { PersistWord(name); }
      if Spells(name, "HSET") { HsetWord(name); }
      if Spells(name, "HDEL") { HdelWord(name); }
      if Spells(name, "DEL") { DelWord(name); }
    }
  }
}
