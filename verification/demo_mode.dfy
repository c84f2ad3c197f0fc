/** `lib/demo-mode.ts`: whether a route serves the built-in demo puzzle,
    talks to the database, or refuses to run. The process environment is a
    parameter: a variable's value, `None` when unset. */
module DemoMode {
  import opened Wrappers
  import opened Strings

  type Environment = string -> Option<string>

  /** `isProduction()`. */
  predicate IsProduction(env: Environment) {
    env("VERCEL") == Some("1") || env("NODE_ENV") == Some("production")
  }

  /** `isSupabaseConfigured()`: a non-empty URL without "placeholder". */
  predicate IsSupabaseConfigured(env: Environment) {
    match env("NEXT_PUBLIC_SUPABASE_URL")
    case None => false
    case Some(url) => url != [] && !Contains(url, "placeholder")
  }

  /** `boolean | "fail"`. */
  datatype UseDemo = Fail | Decided(demo: bool)

  /** `getUseDemo()`. */
  function GetUseDemo(env: Environment): (r: UseDemo)
    ensures r == Fail <==> IsProduction(env) && !IsSupabaseConfigured(env)
    ensures r.Decided? ==>
              (r.demo <==> env("NEXT_PUBLIC_USE_DEMO_PUZZLE") == Some("true") || !IsSupabaseConfigured(env))
  {
    var prod := IsProduction(env);
    var supabaseOk := IsSupabaseConfigured(env);
    var explicitDemo := env("NEXT_PUBLIC_USE_DEMO_PUZZLE") == Some("true");
    if prod && !supabaseOk then Fail
    else Decided(explicitDemo || !supabaseOk)
  }

  /** Outside production the answer is never "fail", and without a usable
      backend it is the demo. */
  lemma NeverFailsOutsideProduction(env: Environment)
    requires !IsProduction(env)
    ensures GetUseDemo(env).Decided?
    ensures !IsSupabaseConfigured(env) ==> GetUseDemo(env) == Decided(true)
  {
  }

  /** A URL containing "placeholder" counts as unconfigured: in production
      that fails, elsewhere it falls back to the demo. */
  lemma PlaceholderUrl(env: Environment)
    requires env("NEXT_PUBLIC_SUPABASE_URL") == Some("https://placeholder.supabase.co")
    ensures !IsSupabaseConfigured(env)
    ensures GetUseDemo(env) == if IsProduction(env) then Fail else Decided(true)
  {
    assert "https://placeholder.supabase.co" == "https://" + "placeholder" + ".supabase.co";
    ContainsInfix("https://", "placeholder", ".supabase.co");
  }
}
